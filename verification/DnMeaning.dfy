/**
 * What escaping leaves alone, and what the grammar of RFC 4514 section 3 refuses.
 */
module DnMeaning {
  import opened Common
  import opened Dn

  /** The characters that are never written bare, those that are not at either end, and the one not in front. */
  predicate MayStandBare(value: string, i: nat)
    requires i < |value|
  {
    && value[i] !in {'\0', '"', '+', ',', ';', '<', '>', '\\'}
    && (value[i] == ' ' ==> 0 < i < |value| - 1) && (value[i] == '#' ==> i > 0)
  }

  lemma BareAt(value: string, i: nat)
    requires i < |value|
    ensures MayStandBare(value, i) <==> EscapedAt(value, i) == [value[i]]
  {
  }

  lemma {:induction false} BareFrom(value: string, i: nat)
    requires i <= |value| && forall k | 0 <= k < |value| :: EscapedAt(value, k) == [value[k]]
    ensures EscapedFrom(value, i) == value[i..]
    decreases |value| - i
  {
    if i < |value| {
      BareFrom(value, i + 1);
      assert value[i..] == [value[i]] + value[i + 1..];
    }
  }

  /** A value all of whose characters may stand bare is written as it is; any other value is not. */
  lemma BareIsUnchanged(value: string)
    ensures (forall k | 0 <= k < |value| :: MayStandBare(value, k)) <==> Escaped(value) == value
  {
    if forall k | 0 <= k < |value| :: MayStandBare(value, k) {
      forall k | 0 <= k < |value| ensures EscapedAt(value, k) == [value[k]] {
        assert MayStandBare(value, k);
        BareAt(value, k);
      }
      BareFrom(value, 0);
    } else {
      var k :| 0 <= k < |value| && !MayStandBare(value, k);
      LongerFrom(value, 0, k);
    }
  }

  lemma {:induction false} LongerFrom(value: string, i: nat, k: nat)
    requires i <= k < |value| && !MayStandBare(value, k)
    ensures |EscapedFrom(value, i)| > |value| - i
    decreases |value| - i
  {
    if i < k {
      LongerFrom(value, i + 1, k);
    } else {
      AtLeastAsLong(value, i + 1);
    }
  }

  lemma {:induction false} AtLeastAsLong(value: string, i: nat)
    requires i <= |value|
    ensures |EscapedFrom(value, i)| >= |value| - i
    decreases |value| - i
  {
    if i < |value| {
      AtLeastAsLong(value, i + 1);
    }
  }

  /** Hex digits are these, with these values. */
  lemma HexMeaning(c: char)
    ensures IsHex(c) <==> c in "0123456789ABCDEFabcdef"
    ensures IsHex(c) ==> "0123456789ABCDEF"[HexValue(c)] == c || "0123456789abcdef"[HexValue(c)] == c
  {
    var digits := "0123456789ABCDEFabcdef";
    if IsHex(c) {
      var k := if c <= '9' then c as int - '0' as int else if c <= 'F' then c as int - 'A' as int + 10 else c as int - 'a' as int + 16;
      assert digits[k] == c;
    }
  }

  /** Read bare, these characters make a value unreadable; so do a space or a sharp in front and a space at the
      end. */
  lemma BareIsRefused(c: char, more: string, first: bool)
    ensures c in {'\0', '"', '+', ';', '<', '>'} ==> ReadValue([c] + more, first) == None
    ensures c in {' ', '#'} ==> ReadValue([c] + more, true) == None
    ensures AtEnd(more) ==> ReadValue([' '] + more, first) == None
  {
    assert ([' '] + more)[1..] == more;
  }

  /** A comma ends a value, and a backslash must stand before a character that may be paired or two hex digits. */
  lemma EndAndEscape(c: char, more: string, first: bool)
    ensures ReadValue([','] + more, first) == Some(("", [','] + more))
    ensures !IsPairable(c) && !IsHex(c) ==> ReadValue(['\\', c] + more, first) == None
    ensures IsPairable(c) <==> c in {'"', '+', ',', ';', '<', '>', '\\', ' ', '#', '='}
  {
  }
}
