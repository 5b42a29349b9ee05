/**
 * The JavaScript string operations the services rely on, on `seq<char>`:
 * `split` on one character, `join`, `trim`, `split(/\s+/)`, ASCII case
 * mapping and decimal digits.
 */
module Strings {

  /** Index of the first occurrence of `c` in `s`. */
  function IndexOf(s: string, c: char): (i: nat)
    requires c in s
    ensures i < |s| && s[i] == c && c !in s[..i]
  {
    if s[0] == c then 0 else 1 + IndexOf(s[1..], c)
  }

  /** `s.split(sep)` for a one-character separator. */
  function Split(s: string, sep: char): (parts: seq<string>)
    ensures |parts| >= 1
    ensures forall i :: 0 <= i < |parts| ==> sep !in parts[i]
    decreases |s|
  {
    if sep !in s then [s]
    else
      var i := IndexOf(s, sep);
      [s[..i]] + Split(s[i + 1..], sep)
  }

  /** `parts.join(sep)`; an empty list joins to the empty string. */
  function Join(parts: seq<string>, sep: char): string
  {
    if |parts| == 0 then ""
    else if |parts| == 1 then parts[0]
    else parts[0] + [sep] + Join(parts[1..], sep)
  }

  function Count(s: string, c: char): nat
  {
    if s == [] then 0 else (if s[0] == c then 1 else 0) + Count(s[1..], c)
  }

  lemma {:induction false} CountSplit(s: string, c: char, i: nat)
    requires i <= |s|
    ensures Count(s, c) == Count(s[..i], c) + Count(s[i..], c)
  {
    if i > 0 {
      CountSplit(s[1..], c, i - 1);
      assert s[1..][..i - 1] == s[..i][1..];
      assert s[1..][i - 1..] == s[i..];
    }
  }

  /** Joining the pieces of a split with the same separator gives back the string. */
  lemma {:induction false} JoinSplit(s: string, sep: char)
    ensures Join(Split(s, sep), sep) == s
    decreases |s|
  {
    if sep in s {
      var i := IndexOf(s, sep);
      JoinSplit(s[i + 1..], sep);
      var rest := Split(s[i + 1..], sep);
      assert Split(s, sep) == [s[..i]] + rest;
      assert ([s[..i]] + rest)[1..] == rest;
      assert s == s[..i] + [sep] + s[i + 1..];
    }
  }

  /** The first separator of `a + [sep] + b` is the one after `a`, when `a` has none. */
  lemma {:induction false} IndexOfAfterPrefix(a: string, sep: char, b: string)
    requires sep !in a
    ensures IndexOf(a + [sep] + b, sep) == |a|
  {
    var s := a + [sep] + b;
    assert s[|a|] == sep && s[..|a|] == a;
  }

  /** Splitting a join of separator-free pieces gives back the pieces. */
  lemma {:induction false} SplitJoin(parts: seq<string>, sep: char)
    requires |parts| >= 1
    requires forall i :: 0 <= i < |parts| ==> sep !in parts[i]
    ensures Split(Join(parts, sep), sep) == parts
  {
    if |parts| > 1 {
      var head, rest := parts[0], parts[1..];
      var tail := Join(rest, sep);
      var s := head + [sep] + tail;
      assert Join(parts, sep) == s;
      IndexOfAfterPrefix(head, sep, tail);
      assert s[..|head|] == head && s[|head| + 1..] == tail;
      assert Split(s, sep) == [head] + Split(tail, sep);
      SplitJoin(rest, sep);
      assert [head] + rest == parts;
    }
  }

  /** The first piece of a split is the text before the first separator; the others join back to the text after it. */
  lemma {:induction false} SplitFirst(s: string, sep: char)
    requires sep in s
    ensures |Split(s, sep)| >= 2
    ensures Split(s, sep)[0] == s[..IndexOf(s, sep)]
    ensures Join(Split(s, sep)[1..], sep) == s[IndexOf(s, sep) + 1..]
  {
    var i := IndexOf(s, sep);
    JoinSplit(s[i + 1..], sep);
    assert Split(s, sep)[1..] == Split(s[i + 1..], sep);
  }

  /** Joining two non-empty lists puts one separator between their joins. */
  lemma {:induction false} JoinAppend(p: seq<string>, q: seq<string>, sep: char)
    requires |p| >= 1 && |q| >= 1
    ensures Join(p + q, sep) == Join(p, sep) + [sep] + Join(q, sep)
  {
    if |p| > 1 {
      JoinAppend(p[1..], q, sep);
      assert (p + q)[1..] == p[1..] + q;
    } else {
      assert (p + q)[1..] == q;
    }
  }

  /** Splitting around one separator splits each side on its own. */
  lemma {:induction false} SplitAppend(x: string, sep: char, y: string)
    ensures Split(x + [sep] + y, sep) == Split(x, sep) + Split(y, sep)
  {
    var p, q := Split(x, sep), Split(y, sep);
    JoinSplit(x, sep);
    JoinSplit(y, sep);
    JoinAppend(p, q, sep);
    SplitJoin(p + q, sep);
  }

  /** Index of the last occurrence of `c` in `s`. */
  function LastIndexOf(s: string, c: char): (i: nat)
    requires c in s
    ensures i < |s| && s[i] == c && c !in s[i + 1..]
  {
    if s[|s| - 1] == c then |s| - 1
    else
      assert c in s[..|s| - 1] by {
        var k :| 0 <= k < |s| && s[k] == c;
        assert s[..|s| - 1][k] == c;
      }
      var i := LastIndexOf(s[..|s| - 1], c);
      assert s[i + 1..] == s[..|s| - 1][i + 1..] + [s[|s| - 1]];
      i
  }

  /** A string with k separators splits into k + 1 pieces. */
  lemma {:induction false} SplitLength(s: string, sep: char)
    ensures |Split(s, sep)| == Count(s, sep) + 1
    decreases |s|
  {
    if sep !in s {
      CountAbsent(s, sep);
    } else {
      var i := IndexOf(s, sep);
      SplitLength(s[i + 1..], sep);
      CountSplit(s, sep, i);
      CountAbsent(s[..i], sep);
      assert s[i..] == [sep] + s[i + 1..];
      assert Count(s[i..], sep) == 1 + Count(s[i + 1..], sep);
    }
  }

  lemma {:induction false} CountAbsent(s: string, c: char)
    requires c !in s
    ensures Count(s, c) == 0
  {
    if s != [] {
      CountAbsent(s[1..], c);
    }
  }

  // ---------------------------------------------------------------------
  // Whitespace, trim and split(/\s+/)
  // ---------------------------------------------------------------------

  /** ECMAScript WhiteSpace and LineTerminator code points (what `trim` and `\s` remove). */
  predicate IsSpace(c: char)
  {
    c == '\t' || c == '\n' || c == '\U{000B}' || c == '\U{000C}' || c == '\r' || c == ' '
    || c == '\U{00A0}' || c == '\U{1680}' || ('\U{2000}' <= c <= '\U{200A}')
    || c == '\U{2028}' || c == '\U{2029}' || c == '\U{202F}' || c == '\U{205F}'
    || c == '\U{3000}' || c == '\U{FEFF}'
  }

  predicate NoSpace(s: string)
  {
    forall i :: 0 <= i < |s| ==> !IsSpace(s[i])
  }

  predicate AllSpace(s: string)
  {
    forall i :: 0 <= i < |s| ==> IsSpace(s[i])
  }

  function TrimStart(s: string): (r: string)
    ensures |r| <= |s| && r == s[|s| - |r|..]
    ensures AllSpace(s[..|s| - |r|])
    ensures r == [] || !IsSpace(r[0])
  {
    s[SpaceRun(s)..]
  }

  function TrimEnd(s: string): (r: string)
    ensures |r| <= |s| && r == s[..|r|]
    ensures AllSpace(s[|r|..])
    ensures r == [] || !IsSpace(r[|r| - 1])
  {
    if s != [] && IsSpace(s[|s| - 1]) then TrimEnd(s[..|s| - 1]) else s
  }

  /** `s.trim()`. */
  function Trim(s: string): string
  {
    TrimEnd(TrimStart(s))
  }

  lemma {:induction false} SliceOfSlice(s: string, i: nat, n: nat)
    requires i + n <= |s|
    ensures s[i..][..n] == s[i..i + n] && s[i..][n..] == s[i + n..]
  {
  }

  /** The trimmed string is the slice s[i..j], bounded by non-space characters, with only spaces cut away. */
  lemma {:induction false} TrimIsSlice(s: string) returns (i: nat, j: nat)
    ensures i <= j <= |s| && Trim(s) == s[i..j]
    ensures AllSpace(s[..i]) && AllSpace(s[j..])
    ensures i < j ==> !IsSpace(s[i]) && !IsSpace(s[j - 1])
  {
    var l := TrimStart(s);
    i := |s| - |l|;
    var r := TrimEnd(l);
    j := i + |r|;
    SliceOfSlice(s, i, |r|);
    assert l == s[i..] && r == l[..|r|];
    assert Trim(s) == s[i..j];
    assert s[j..] == l[|r|..];
    if r != [] {
      assert s[i] == l[0] && s[j - 1] == r[|r| - 1];
      assert !IsSpace(l[0]) && !IsSpace(r[|r| - 1]);
    }
  }

  /** Trimming yields the empty string exactly when every character is a space. */
  lemma {:induction false} TrimEmptyIff(s: string)
    ensures Trim(s) == [] <==> AllSpace(s)
  {
    var i, j := TrimIsSlice(s);
    if i == j {
      assert s == s[..i] + s[j..];
      forall k | 0 <= k < |s| ensures IsSpace(s[k]) {
        if k < i {
          assert s[k] == s[..i][k];
        } else {
          assert s[k] == s[j..][k - j];
        }
      }
    }
  }

  /** Index of the first space in `s`, or |s| when there is none. */
  function FirstSpace(s: string): (i: nat)
    ensures i <= |s|
    ensures forall k :: 0 <= k < i ==> !IsSpace(s[k])
    ensures i < |s| ==> IsSpace(s[i])
  {
    if s == [] || IsSpace(s[0]) then 0 else 1 + FirstSpace(s[1..])
  }

  /** Number of leading spaces of `s`. */
  function SpaceRun(s: string): (n: nat)
    ensures n <= |s|
    ensures AllSpace(s[..n])
    ensures n < |s| ==> !IsSpace(s[n])
  {
    if s != [] && IsSpace(s[0]) then 1 + SpaceRun(s[1..]) else 0
  }

  /** `s.split(/\s+/)`: the pieces between maximal runs of spaces. */
  function SplitSpaces(s: string): (parts: seq<string>)
    ensures |parts| >= 1
    ensures forall k :: 0 <= k < |parts| ==> NoSpace(parts[k])
    decreases |s|
  {
    var i := FirstSpace(s);
    if i == |s| then [s]
    else
      var n := SpaceRun(s[i..]);
      [s[..i]] + SplitSpaces(s[i + n..])
  }

  /** Keeps the non-empty strings, in order (`filter(t => t.length > 0)`). */
  function NonEmpty(xs: seq<string>): (r: seq<string>)
    ensures forall k :: 0 <= k < |r| ==> r[k] != []
    ensures |r| <= |xs|
  {
    if xs == [] then []
    else if xs[0] == [] then NonEmpty(xs[1..])
    else [xs[0]] + NonEmpty(xs[1..])
  }

  function Concat(xs: seq<string>): string
  {
    if xs == [] then "" else xs[0] + Concat(xs[1..])
  }

  /** The string with every space removed. */
  function RemoveSpaces(s: string): (r: string)
    ensures forall k :: 0 <= k < |r| ==> !IsSpace(r[k])
  {
    if s == [] then ""
    else if IsSpace(s[0]) then RemoveSpaces(s[1..])
    else [s[0]] + RemoveSpaces(s[1..])
  }

  lemma {:induction false} RemoveSpacesAppend(a: string, b: string)
    ensures RemoveSpaces(a + b) == RemoveSpaces(a) + RemoveSpaces(b)
  {
    if a != [] {
      assert (a + b)[0] == a[0];
      assert (a + b)[1..] == a[1..] + b;
      RemoveSpacesAppend(a[1..], b);
      if !IsSpace(a[0]) {
        assert RemoveSpaces(a + b) == [a[0]] + (RemoveSpaces(a[1..]) + RemoveSpaces(b));
      }
    } else {
      assert a + b == b;
    }
  }

  lemma {:induction false} RemoveSpacesOfSpaces(s: string)
    requires AllSpace(s)
    ensures RemoveSpaces(s) == ""
  {
    if s != [] {
      RemoveSpacesOfSpaces(s[1..]);
    }
  }

  lemma {:induction false} RemoveSpacesOfWord(s: string)
    requires forall k :: 0 <= k < |s| ==> !IsSpace(s[k])
    ensures RemoveSpaces(s) == s
  {
    if s != [] {
      RemoveSpacesOfWord(s[1..]);
    }
  }

  /** Cutting a run of spaces out of `s` does not change its non-space characters. */
  lemma {:induction false} RemoveSpacesGap(s: string, i: nat, j: nat)
    requires i <= j <= |s| && AllSpace(s[i..j])
    ensures RemoveSpaces(s) == RemoveSpaces(s[..i]) + RemoveSpaces(s[j..])
  {
    var a, gap, b := s[..i], s[i..j], s[j..];
    assert s == a + (gap + b);
    RemoveSpacesAppend(a, gap + b);
    RemoveSpacesAppend(gap, b);
    RemoveSpacesOfSpaces(gap);
  }

  /** Where the text after the first run of spaces starts. */
  function AfterFirstGap(s: string): (k: nat)
    requires FirstSpace(s) < |s|
    ensures FirstSpace(s) < k <= |s|
  {
    FirstSpace(s) + SpaceRun(s[FirstSpace(s)..])
  }

  lemma {:induction false} SplitSpacesStep(s: string)
    requires FirstSpace(s) < |s|
    ensures Concat(SplitSpaces(s)) == s[..FirstSpace(s)] + Concat(SplitSpaces(s[AfterFirstGap(s)..]))
  {
    var parts := SplitSpaces(s);
    var rest := SplitSpaces(s[AfterFirstGap(s)..]);
    assert parts == [s[..FirstSpace(s)]] + rest;
    assert parts[0] == s[..FirstSpace(s)] && parts[1..] == rest;
  }

  lemma {:induction false} RemoveSpacesStep(s: string)
    requires FirstSpace(s) < |s|
    ensures RemoveSpaces(s) == s[..FirstSpace(s)] + RemoveSpaces(s[AfterFirstGap(s)..])
  {
    var i := FirstSpace(s);
    var n := SpaceRun(s[i..]);
    assert s[i..][..n] == s[i..i + n];
    RemoveSpacesGap(s, i, i + n);
    RemoveSpacesOfWord(s[..i]);
  }

  /** The pieces of split(/\s+/), put back together, are the non-space characters of `s` in order. */
  lemma {:induction false} SplitSpacesConcat(s: string)
    ensures Concat(SplitSpaces(s)) == RemoveSpaces(s)
    decreases |s|
  {
    if FirstSpace(s) == |s| {
      RemoveSpacesOfWord(s);
      assert SplitSpaces(s) == [s];
    } else {
      SplitSpacesStep(s);
      RemoveSpacesStep(s);
      SplitSpacesConcat(s[AfterFirstGap(s)..]);
    }
  }

  lemma {:induction false} ConcatNonEmpty(xs: seq<string>)
    ensures Concat(NonEmpty(xs)) == Concat(xs)
    ensures forall k :: 0 <= k < |NonEmpty(xs)| ==> NonEmpty(xs)[k] in xs
  {
    if xs != [] {
      ConcatNonEmpty(xs[1..]);
      if xs[0] != [] {
        var r := NonEmpty(xs);
        assert r == [xs[0]] + NonEmpty(xs[1..]);
        forall k | 0 <= k < |r| ensures r[k] in xs {
          if k > 0 {
            assert r[k] == NonEmpty(xs[1..])[k - 1];
            assert NonEmpty(xs[1..])[k - 1] in xs[1..];
          }
        }
      }
    }
  }

  lemma {:induction false} RemoveSpacesDropLeading(s: string, i: nat)
    requires i <= |s| && AllSpace(s[..i])
    ensures RemoveSpaces(s) == RemoveSpaces(s[i..])
  {
    assert s[0..i] == s[..i];
    RemoveSpacesGap(s, 0, i);
    assert s[..0] == [];
  }

  lemma {:induction false} RemoveSpacesDropTrailing(s: string, j: nat)
    requires j <= |s| && AllSpace(s[j..])
    ensures RemoveSpaces(s) == RemoveSpaces(s[..j])
  {
    assert s[j..|s|] == s[j..];
    RemoveSpacesGap(s, j, |s|);
    assert s[|s|..] == [];
  }

  /** Trimming removes spaces only. */
  lemma {:induction false} RemoveSpacesTrim(s: string)
    ensures RemoveSpaces(Trim(s)) == RemoveSpaces(s)
  {
    var i, j := TrimIsSlice(s);
    RemoveSpacesDropTrailing(s, j);
    var u := s[..j];
    assert u[..i] == s[..i] && u[i..] == s[i..j];
    RemoveSpacesDropLeading(u, i);
  }

  /** Non-empty pieces without spaces. */
  predicate Words(ws: seq<string>)
  {
    forall k :: 0 <= k < |ws| ==> ws[k] != [] && NoSpace(ws[k])
  }

  lemma {:induction false} TrimStartPadded(pre: string, t: string)
    requires AllSpace(pre) && (t == [] || !IsSpace(t[0]))
    ensures TrimStart(pre + t) == t
  {
    SpaceRunPadded(pre, t);
    assert (pre + t)[|pre|..] == t;
  }

  lemma {:induction false} TrimEndPadded(t: string, post: string)
    requires AllSpace(post) && (t == [] || !IsSpace(t[|t| - 1]))
    ensures TrimEnd(t + post) == t
    decreases |post|
  {
    if post == [] {
      assert t + post == t;
    } else {
      var n := |post| - 1;
      assert (t + post)[|t| + n] == post[n];
      assert (t + post)[..|t| + n] == t + post[..n];
      TrimEndPadded(t, post[..n]);
    }
  }

  /** Trimming takes off exactly the whitespace around a string that starts and ends with a non-space. */
  lemma {:induction false} TrimPadded(pre: string, t: string, post: string)
    requires AllSpace(pre) && AllSpace(post)
    requires t != [] && !IsSpace(t[0]) && !IsSpace(t[|t| - 1])
    ensures Trim(pre + t + post) == t
  {
    assert pre + t + post == pre + (t + post);
    TrimStartPadded(pre, t + post);
    TrimEndPadded(t, post);
  }

  /** Gaps to put between words: each a non-empty run of whitespace. */
  predicate Gaps(gaps: seq<string>)
  {
    forall k :: 0 <= k < |gaps| ==> gaps[k] != [] && AllSpace(gaps[k])
  }

  /** The words with `gaps[k]` between `ws[k]` and `ws[k + 1]`. */
  function Spaced(ws: seq<string>, gaps: seq<string>): string
    requires |ws| >= 1 && |gaps| == |ws| - 1
  {
    if |ws| == 1 then ws[0] else ws[0] + gaps[0] + Spaced(ws[1..], gaps[1..])
  }

  /** Words separated by whitespace gaps begin and end with a non-space. */
  lemma {:induction false} SpacedEnds(ws: seq<string>, gaps: seq<string>)
    requires |ws| >= 1 && |gaps| == |ws| - 1 && Words(ws)
    ensures var s := Spaced(ws, gaps);
            s != [] && !IsSpace(s[0]) && !IsSpace(s[|s| - 1])
  {
    if |ws| > 1 {
      SpacedEnds(ws[1..], gaps[1..]);
      var t := Spaced(ws[1..], gaps[1..]);
      var s := ws[0] + gaps[0] + t;
      assert Spaced(ws, gaps) == s;
      assert s[0] == ws[0][0] && s[|s| - 1] == t[|t| - 1];
    }
  }

  /** A run of whitespace followed by a non-space is exactly the leading run. */
  lemma {:induction false} SpaceRunPadded(g: string, t: string)
    requires AllSpace(g) && (t == [] || !IsSpace(t[0]))
    ensures SpaceRun(g + t) == |g|
    decreases |g|
  {
    if g == [] {
      assert g + t == t;
    } else {
      assert (g + t)[0] == g[0];
      assert (g + t)[1..] == g[1..] + t;
      SpaceRunPadded(g[1..], t);
    }
  }

  /** A word followed by a whitespace gap and a non-space splits off as the first piece. */
  lemma {:induction false} SplitSpacesAfterWord(w: string, g: string, t: string)
    requires NoSpace(w) && g != [] && AllSpace(g) && t != [] && !IsSpace(t[0])
    ensures SplitSpaces(w + g + t) == [w] + SplitSpaces(t)
  {
    var s := w + g + t;
    assert FirstSpace(s) == |w| by {
      assert forall k :: 0 <= k < |w| ==> s[k] == w[k];
      assert s[|w|] == g[0];
    }
    assert s[|w|..] == g + t;
    SpaceRunPadded(g, t);
    assert s[..|w|] == w && s[|w| + |g|..] == t;
  }

  /** split(/\s+/) of words separated by any whitespace gaps gives back the words. */
  lemma {:induction false} SplitSpacesSpaced(ws: seq<string>, gaps: seq<string>)
    requires |ws| >= 1 && |gaps| == |ws| - 1 && Words(ws) && Gaps(gaps)
    ensures SplitSpaces(Spaced(ws, gaps)) == ws
  {
    var w := ws[0];
    if |ws| == 1 {
      assert FirstSpace(w) == |w|;
    } else {
      var t := Spaced(ws[1..], gaps[1..]);
      SpacedEnds(ws[1..], gaps[1..]);
      assert Spaced(ws, gaps) == w + gaps[0] + t;
      SplitSpacesAfterWord(w, gaps[0], t);
      SplitSpacesSpaced(ws[1..], gaps[1..]);
      assert [w] + ws[1..] == ws;
    }
  }

  /** Words have nothing to drop. */
  lemma {:induction false} NonEmptyOfWords(ws: seq<string>)
    requires Words(ws)
    ensures NonEmpty(ws) == ws
  {
    if ws != [] {
      NonEmptyOfWords(ws[1..]);
    }
  }

  // ---------------------------------------------------------------------
  // ASCII classes, case mapping, decimal digits
  // ---------------------------------------------------------------------

  predicate IsDigit(c: char) { '0' <= c <= '9' }
  predicate IsLower(c: char) { 'a' <= c <= 'z' }
  predicate IsUpper(c: char) { 'A' <= c <= 'Z' }
  predicate IsAlnum(c: char) { IsDigit(c) || IsLower(c) || IsUpper(c) }

  predicate AllDigits(s: string)
  {
    forall i :: 0 <= i < |s| ==> IsDigit(s[i])
  }

  function ToLowerChar(c: char): (r: char)
    ensures !IsUpper(r)
    ensures IsUpper(c) ==> r as int == c as int + 32
    ensures !IsUpper(c) ==> r == c
  {
    if IsUpper(c) then (c as int + 32) as char else c
  }

  function ToUpperChar(c: char): (r: char)
    ensures !IsLower(r)
    ensures IsLower(c) ==> r as int == c as int - 32
    ensures !IsLower(c) ==> r == c
  {
    if IsLower(c) then (c as int - 32) as char else c
  }

  function ToLower(s: string): (r: string)
    ensures |r| == |s|
    ensures forall i :: 0 <= i < |s| ==> r[i] == ToLowerChar(s[i])
  {
    if s == [] then "" else [ToLowerChar(s[0])] + ToLower(s[1..])
  }

  function ToUpper(s: string): (r: string)
    ensures |r| == |s|
    ensures forall i :: 0 <= i < |s| ==> r[i] == ToUpperChar(s[i])
  {
    if s == [] then "" else [ToUpperChar(s[0])] + ToUpper(s[1..])
  }

  /** Value of a string of decimal digits (most significant first). */
  function DigitsValue(s: string): nat
    requires AllDigits(s)
  {
    if s == [] then 0
    else 10 * DigitsValue(s[..|s| - 1]) + (s[|s| - 1] as int - '0' as int)
  }

  /** Decimal form of a natural number, as `${n}` prints it. */
  function NatToString(n: nat): (s: string)
    ensures s != [] && AllDigits(s)
    ensures |s| > 1 ==> s[0] != '0'
  {
    if n < 10 then [('0' as int + n) as char]
    else NatToString(n / 10) + [('0' as int + n % 10) as char]
  }

  /** Reading back the decimal form gives the number. */
  lemma {:induction false} DigitsValueOfNatToString(n: nat)
    ensures DigitsValue(NatToString(n)) == n
  {
    if n >= 10 {
      DigitsValueOfNatToString(n / 10);
      var s := NatToString(n);
      assert s[..|s| - 1] == NatToString(n / 10);
    }
  }

  /** `s.startsWith(t)`. */
  predicate StartsWith(s: string, t: string)
  {
    |t| <= |s| && s[..|t|] == t
  }

  /** `s.includes(t)`: some suffix of `s` starts with `t`. */
  predicate Contains(s: string, t: string)
    decreases |s|
  {
    StartsWith(s, t) || (s != [] && Contains(s[1..], t))
  }

  /** Case-insensitive containment (ILIKE '%t%'), with ASCII case folding. */
  predicate ContainsInsensitive(s: string, t: string)
  {
    Contains(ToLower(s), ToLower(t))
  }

  /** `t` occurs in `s` starting at index `i`. */
  predicate OccursAt(s: string, t: string, i: int)
  {
    0 <= i <= |s| - |t| && s[i..i + |t|] == t
  }

  /** Containment means `t` occurs at some position of `s`. */
  lemma {:induction false} ContainsAt(s: string, t: string)
    ensures Contains(s, t) <==> exists i :: OccursAt(s, t, i)
    decreases |s|
  {
    if StartsWith(s, t) {
      assert OccursAt(s, t, 0);
    } else if s != [] {
      ContainsAt(s[1..], t);
      if exists i :: OccursAt(s, t, i) {
        var i :| OccursAt(s, t, i);
        assert i != 0;
        assert s[1..][i - 1..i - 1 + |t|] == s[i..i + |t|];
        assert OccursAt(s[1..], t, i - 1);
      }
      if Contains(s[1..], t) {
        var i :| OccursAt(s[1..], t, i);
        assert s[1..][i..i + |t|] == s[i + 1..i + 1 + |t|];
        assert OccursAt(s, t, i + 1);
      }
    } else {
      assert |t| > 0;
    }
  }
}
