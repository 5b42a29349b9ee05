/**
 * The user field patterns: username, password (with the configured special
 * characters) and mobile number (with the configured operator codes).
 * Each pattern is stated as the set of strings it accepts, next to a
 * left-to-right matcher that follows the pattern's structure.
 */
module Regexes {
  import opened Strings

  // ---------------------------------------------------------------------
  // username: ^[a-zA-Z0-9_-]+$
  // ---------------------------------------------------------------------

  predicate UsernameChar(c: char)
  {
    IsAlnum(c) || c == '_' || c == '-'
  }

  /** The strings the username pattern accepts. */
  predicate IsUsername(s: string)
  {
    |s| >= 1 && forall i :: 0 <= i < |s| ==> UsernameChar(s[i])
  }

  /** The `+` loop of the pattern: consume one class character, then more or the end. */
  function MatchUsername(s: string): (b: bool)
    ensures b <==> IsUsername(s)
  {
    if s == [] then false
    else if !UsernameChar(s[0]) then false
    else if |s| == 1 then true
    else
      var rest := MatchUsername(s[1..]);
      assert rest <==> IsUsername(s[1..]);
      assert IsUsername(s) <==> UsernameChar(s[0]) && IsUsername(s[1..]) by {
        if UsernameChar(s[0]) && IsUsername(s[1..]) {
          forall i | 0 <= i < |s| ensures UsernameChar(s[i]) {
            if i > 0 { assert s[i] == s[1..][i - 1]; }
          }
        }
      }
      rest
  }

  // ---------------------------------------------------------------------
  // password: ^(?=.*[a-z])(?=.*[A-Z])(?=.*\d)(?=.*[specials]).+$
  // ---------------------------------------------------------------------

  /** Characters `.` does not match: the ECMAScript line terminators. */
  predicate IsLineTerminator(c: char)
  {
    c == '\n' || c == '\r' || c == '\U{2028}' || c == '\U{2029}'
  }

  predicate Has(s: string, p: char -> bool)
  {
    exists i :: 0 <= i < |s| && p(s[i])
  }

  /**
   * The strings the password pattern accepts: one line of at least one
   * character holding a lower-case letter, an upper-case letter, a digit and
   * one of `specials`, in any order.
   */
  predicate IsPassword(s: string, specials: set<char>)
  {
    |s| >= 1
    && (forall i :: 0 <= i < |s| ==> !IsLineTerminator(s[i]))
    && Has(s, IsLower) && Has(s, IsUpper) && Has(s, IsDigit)
    && Has(s, c => c in specials)
  }

  /** The positions 0..n-1. */
  function Positions(n: nat): (r: set<int>)
    ensures |r| == n
    ensures forall i :: i in r <==> 0 <= i < n
  {
    if n == 0 then {} else Positions(n - 1) + {n - 1}
  }

  /**
   * The pattern encodes no length limit, yet with special characters that are
   * not letters or digits it implies at least four characters.
   */
  lemma PasswordAtLeastFour(s: string, specials: set<char>)
    requires IsPassword(s, specials)
    requires forall c :: c in specials ==> !IsAlnum(c)
    ensures |s| >= 4
  {
    var a :| 0 <= a < |s| && IsLower(s[a]);
    var b :| 0 <= b < |s| && IsUpper(s[b]);
    var c :| 0 <= c < |s| && IsDigit(s[c]);
    var d :| 0 <= d < |s| && s[d] in specials;
    var four := {a, b, c, d};
    assert |four| == 4;
    SubsetCard(four, Positions(|s|));
  }

  lemma SubsetCard(a: set<int>, b: set<int>)
    requires a <= b
    ensures |a| <= |b|
  {
    assert b == a + (b - a);
  }

  // ---------------------------------------------------------------------
  // mobileNumber: ^(?:(?:994)?(?:0)?)?(op1|op2|…)([1-9]\d{6})$
  // ---------------------------------------------------------------------

  /** The optional country and trunk prefixes, in the order the pattern tries them. */
  const Prefixes: seq<string> := ["9940", "994", "0", ""]

  /** A subscriber number: a non-zero digit followed by exactly six digits. */
  predicate IsSubscriber(t: string)
  {
    |t| == 7 && '1' <= t[0] <= '9' && AllDigits(t)
  }

  /** `s` is prefix `p`, then operator code `o`, then a subscriber number. */
  predicate SplitsAs(s: string, p: string, o: string)
  {
    |p| + |o| <= |s| && s[..|p|] == p && s[|p|..|p| + |o|] == o && IsSubscriber(s[|p| + |o|..])
  }

  /** The strings the mobile pattern accepts for the given operator codes. */
  predicate IsMobileNumber(s: string, ops: seq<string>)
  {
    exists p, o :: p in Prefixes && o in ops && SplitsAs(s, p, o)
  }

  /** Tries the operator alternatives `ops[j..]` after prefix `p`, in order. */
  function TryOperators(s: string, p: string, ops: seq<string>, j: nat): (b: bool)
    requires j <= |ops|
    ensures b <==> exists k :: j <= k < |ops| && SplitsAs(s, p, ops[k])
    decreases |ops| - j
  {
    if j == |ops| then false
    else SplitsAs(s, p, ops[j]) || TryOperators(s, p, ops, j + 1)
  }

  /** Tries the prefixes `Prefixes[k..]`, each with every operator alternative. */
  function TryPrefixes(s: string, ops: seq<string>, k: nat): (b: bool)
    requires k <= |Prefixes|
    ensures b <==> exists m, o :: k <= m < |Prefixes| && o in ops && SplitsAs(s, Prefixes[m], o)
    decreases |Prefixes| - k
  {
    if k == |Prefixes| then false
    else
      var here := TryOperators(s, Prefixes[k], ops, 0);
      assert here <==> exists o :: o in ops && SplitsAs(s, Prefixes[k], o) by {
        if here {
          var j :| 0 <= j < |ops| && SplitsAs(s, Prefixes[k], ops[j]);
          assert ops[j] in ops;
        }
      }
      here || TryPrefixes(s, ops, k + 1)
  }

  /** The matcher accepts exactly the strings of the mobile pattern. */
  lemma MatchMobileIff(s: string, ops: seq<string>)
    ensures TryPrefixes(s, ops, 0) <==> IsMobileNumber(s, ops)
  {
    if IsMobileNumber(s, ops) {
      var p, o :| p in Prefixes && o in ops && SplitsAs(s, p, o);
      var m :| 0 <= m < |Prefixes| && Prefixes[m] == p;
    }
  }

  /** An accepted number ends in its seven-digit subscriber number, and its length carries no other limit than the parts'. */
  lemma MobileNumberShape(s: string, ops: seq<string>)
    requires IsMobileNumber(s, ops)
    ensures |s| >= 7 && IsSubscriber(s[|s| - 7..])
    ensures exists o :: o in ops && 7 + |o| <= |s| <= 11 + |o|
  {
    var p, o :| p in Prefixes && o in ops && SplitsAs(s, p, o);
    assert s[|p| + |o|..] == s[|s| - 7..];
  }

  /** The same subscriber number is accepted with the country code, with the trunk zero, with both and with neither. */
  lemma MobilePrefixesOptional(o: string, t: string, ops: seq<string>)
    requires o in ops && IsSubscriber(t)
    ensures IsMobileNumber("9940" + o + t, ops)
    ensures IsMobileNumber("994" + o + t, ops)
    ensures IsMobileNumber("0" + o + t, ops)
    ensures IsMobileNumber(o + t, ops)
  {
    forall p | p in Prefixes ensures SplitsAs(p + o + t, p, o) {
      assert (p + o + t)[..|p|] == p;
      assert (p + o + t)[|p|..|p| + |o|] == o;
      assert (p + o + t)[|p| + |o|..] == t;
    }
    assert "" + o + t == o + t;
  }
}
