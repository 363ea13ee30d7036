/**
 * Stable identifiers and the blank test every contract applies to them; shared by the task graph, evidence and
 * completion models.
 */
module Identifiers {

  type Identifier = string

  /** Unicode White_Space, which `str::trim` removes. */
  predicate IsWhiteSpace(c: char) {
    || '\U{0009}' <= c <= '\U{000D}' || c == ' ' || c == '\U{0085}' || c == '\U{00A0}' || c == '\U{1680}'
    || '\U{2000}' <= c <= '\U{200A}' || c == '\U{2028}' || c == '\U{2029}' || c == '\U{202F}' || c == '\U{205F}'
    || c == '\U{3000}'
  }

  /** `trim().is_empty()`. */
  predicate Blank(id: Identifier) {
    forall i :: 0 <= i < |id| ==> IsWhiteSpace(id[i])
  }

  /** The code points that trimming removes: tab to carriage return, the spaces, the line and paragraph separators. */
  ghost predicate Trimmed(c: int) {
    || 9 <= c <= 13 || 0x2000 <= c <= 0x200A
    || c in {32, 0x85, 0xA0, 0x1680, 0x2028, 0x2029, 0x202F, 0x205F, 0x3000}
  }

  lemma {:induction false} BlankExactly(id: Identifier)
    ensures Blank(id) <==> forall i :: 0 <= i < |id| ==> Trimmed(id[i] as int)
  {
    forall i | 0 <= i < |id| ensures IsWhiteSpace(id[i]) <==> Trimmed(id[i] as int) {
    }
  }

  function Utf8Width(c: char): nat {
    if c < '\U{0080}' then 1 else if c < '\U{0800}' then 2 else if c < '\U{10000}' then 3 else 4
  }

  /** Length of the UTF-8 encoding. */
  function Utf8Length(id: Identifier): nat {
    if id == "" then 0 else Utf8Length(id[..|id| - 1]) + Utf8Width(id[|id| - 1])
  }

  /** How many characters of the text have a code point of at least `code`. */
  ghost function CountFrom(id: Identifier, code: int): nat {
    |set k | 0 <= k < |id| && id[k] as int >= code|
  }

  lemma {:induction false} CountFromLast(id: Identifier, code: int)
    requires id != ""
    ensures CountFrom(id, code) == CountFrom(id[..|id| - 1], code) + if id[|id| - 1] as int >= code then 1 else 0
  {
    var front, last := id[..|id| - 1], |id| - 1;
    var all := set k | 0 <= k < |id| && id[k] as int >= code;
    var earlier := set k | 0 <= k < |front| && front[k] as int >= code;
    assert all == earlier + if id[last] as int >= code then {last} else {};
  }

  /** Each character takes one byte, and one more from each of three code points on. */
  lemma {:induction false} Utf8Exactly(id: Identifier)
    ensures Utf8Length(id) == |id| + CountFrom(id, 0x80) + CountFrom(id, 0x800) + CountFrom(id, 0x10000)
  {
    if id != "" {
      Utf8Exactly(id[..|id| - 1]);
      CountFromLast(id, 0x80);
      CountFromLast(id, 0x800);
      CountFromLast(id, 0x10000);
    }
  }

  predicate LowerHex(c: char) {
    '0' <= c <= '9' || 'a' <= c <= 'f'
  }

  /** Identities minted by core: 64 lower-case hexadecimal digits. */
  predicate CoreIdentity(id: Identifier) {
    |id| == 64 && forall i :: 0 <= i < |id| ==> LowerHex(id[i])
  }

  /** General identifiers: not blank, and within the byte limit. */
  predicate BoundedIdentifier(id: Identifier, limit: nat) {
    !Blank(id) && Utf8Length(id) <= limit
  }

  lemma {:induction false} HexLength(id: Identifier)
    requires forall i :: 0 <= i < |id| ==> LowerHex(id[i])
    ensures Utf8Length(id) == |id|
  {
    if id != "" {
      HexLength(id[..|id| - 1]);
    }
  }

  /** A core identity always passes as a general identifier. */
  lemma {:induction false} CoreIsBounded(id: Identifier, limit: nat)
    requires CoreIdentity(id) && 64 <= limit
    ensures BoundedIdentifier(id, limit)
  {
    HexLength(id);
    assert !IsWhiteSpace(id[0]);
  }
}
