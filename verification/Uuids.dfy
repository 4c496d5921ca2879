/** Identifiers as the relay's pattern `uuid` (lower case) and Swift's `UUID(uuidString:)` (either case) take them. */
module Uuids {
  predicate IsHexDigit(c: char, upper: bool) {
    '0' <= c <= '9' || 'a' <= c <= 'f' || (upper && 'A' <= c <= 'F')
  }

  predicate IsUuid(s: string, upper: bool) {
    |s| == 36 && forall i :: 0 <= i < 36 ==> if i in {8, 13, 18, 23} then s[i] == '-' else IsHexDigit(s[i], upper)
  }

  predicate AreHex(s: string, length: nat, upper: bool) {
    && |s| == length
    && forall i :: 0 <= i < |s| ==> '0' <= s[i] <= '9' || 'a' <= s[i] <= 'f' || (upper && 'A' <= s[i] <= 'F')
  }

  /** Five groups of hexadecimal digits with dashes between them. */
  function Dashed(a: string, b: string, c: string, d: string, e: string): string {
    a + (['-'] + (b + (['-'] + (c + (['-'] + (d + (['-'] + e)))))))
  }

  predicate AreGroups(a: string, b: string, c: string, d: string, e: string, upper: bool) {
    AreHex(a, 8, upper) && AreHex(b, 4, upper) && AreHex(c, 4, upper) && AreHex(d, 4, upper) && AreHex(e, 12, upper)
  }

  lemma DashedAt(a: string, b: string, c: string, d: string, e: string)
    requires |a| == 8 && |b| == 4 && |c| == 4 && |d| == 4 && |e| == 12
    ensures var s := Dashed(a, b, c, d, e);
            && |s| == 36 && s[8] == s[13] == s[18] == s[23] == '-'
            && s[..8] == a && s[9..13] == b && s[14..18] == c && s[19..23] == d && s[24..] == e
  {
  }

  lemma GroupsAreUuid(a: string, b: string, c: string, d: string, e: string, upper: bool)
    requires AreGroups(a, b, c, d, e, upper)
    ensures IsUuid(Dashed(a, b, c, d, e), upper)
  {
    var s := Dashed(a, b, c, d, e);
    DashedAt(a, b, c, d, e);
    forall i | 0 <= i < 36
      ensures if i in {8, 13, 18, 23} then s[i] == '-' else IsHexDigit(s[i], upper)
    {
      assert i < 8 ==> s[i] == s[..8][i];
      assert 8 < i < 13 ==> s[i] == s[9..13][i - 9];
      assert 13 < i < 18 ==> s[i] == s[14..18][i - 14];
      assert 18 < i < 23 ==> s[i] == s[19..23][i - 19];
      assert 23 < i ==> s[i] == s[24..][i - 24];
    }
  }

  lemma UuidGroups(s: string, upper: bool) returns (a: string, b: string, c: string, d: string, e: string)
    requires IsUuid(s, upper)
    ensures AreGroups(a, b, c, d, e, upper) && s == Dashed(a, b, c, d, e)
  {
    a, b, c, d, e := s[..8], s[9..13], s[14..18], s[19..23], s[24..];
    assert forall i :: 0 <= i < 36 && i !in {8, 13, 18, 23} ==> IsHexDigit(s[i], upper);
    assert s[8] == '-' && s[13] == '-' && s[18] == '-' && s[23] == '-';
    hide IsUuid;
    assert s[23..] == ['-'] + s[24..];
    assert s[18..] == ['-'] + (s[19..23] + s[23..]);
    assert s[13..] == ['-'] + (s[14..18] + s[18..]);
    assert s[8..] == ['-'] + (s[9..13] + s[13..]);
    assert s == s[..8] + s[8..];
  }

  /** An identifier is five groups of hexadecimal digits, of 8, 4, 4, 4 and 12, with dashes between them. */
  lemma UuidIffGroups(s: string, upper: bool)
    ensures IsUuid(s, upper) <==> exists a, b, c, d, e :: AreGroups(a, b, c, d, e, upper) && s == Dashed(a, b, c, d, e)
  {
    hide IsUuid, AreGroups, Dashed;
    if IsUuid(s, upper) {
      var a, b, c, d, e := UuidGroups(s, upper);
    }
    forall a, b, c, d, e | AreGroups(a, b, c, d, e, upper) && s == Dashed(a, b, c, d, e)
      ensures IsUuid(s, upper)
    {
      GroupsAreUuid(a, b, c, d, e, upper);
    }
  }
}
