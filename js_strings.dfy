/**
 * The JavaScript string operations the scraper and the dashboard rely on:
 * trimming, lower-casing, substring search and the removal of every comma.
 * Strings are sequences of Unicode scalar values.
 */
module JsStrings {

  /** ECMAScript WhiteSpace and LineTerminator code points: what `trim` removes and `parseInt` skips. */
  predicate IsWhitespace(c: char) {
    || c == '\t' || c == '\n' || c == '\U{000B}' || c == '\U{000C}' || c == '\r'
    || c == ' ' || c == '\U{00A0}' || c == '\U{1680}'
    || ('\U{2000}' <= c <= '\U{200A}')
    || c == '\U{2028}' || c == '\U{2029}' || c == '\U{202F}' || c == '\U{205F}'
    || c == '\U{3000}' || c == '\U{FEFF}'
  }

  predicate AllWhitespace(s: string) {
    forall i :: 0 <= i < |s| ==> IsWhitespace(s[i])
  }

  /** Drops the leading whitespace. */
  function TrimStart(s: string): string {
    if |s| > 0 && IsWhitespace(s[0]) then TrimStart(s[1..]) else s
  }

  /** Drops the trailing whitespace. */
  function TrimEnd(s: string): string {
    if |s| > 0 && IsWhitespace(s[|s| - 1]) then TrimEnd(s[..|s| - 1]) else s
  }

  /** Drops whitespace at both ends: no longer than `s`, and neither starting nor ending with whitespace. */
  function Trim(s: string): (r: string)
    ensures |r| <= |s|
    ensures r == [] || (!IsWhitespace(r[0]) && !IsWhitespace(r[|r| - 1]))
  {
    var t := TrimStart(s);
    TrimStartSpec(s);
    TrimEndSpec(t);
    TrimEnd(t)
  }

  /** `s` is `left + r + right` with whitespace-only `left` and `right`. */
  ghost predicate PaddedBy(s: string, r: string) {
    exists i :: 0 <= i <= |s| - |r| && s[i..i + |r|] == r && AllWhitespace(s[..i]) && AllWhitespace(s[i + |r|..])
  }

  /** `trimStart` removes a whitespace-only prefix and stops at the first other character. */
  lemma {:induction false} TrimStartSpec(s: string)
    ensures var r := TrimStart(s);
      && |r| <= |s| && r == s[|s| - |r|..]
      && AllWhitespace(s[..|s| - |r|])
      && (r == [] || !IsWhitespace(r[0]))
  {
    if |s| > 0 && IsWhitespace(s[0]) {
      TrimStartSpec(s[1..]);
      var r := TrimStart(s[1..]);
      assert s[..|s| - |r|] == [s[0]] + s[1..][..|s| - 1 - |r|];
    }
  }

  /** `trimEnd` removes a whitespace-only suffix and stops at the last other character. */
  lemma {:induction false} TrimEndSpec(s: string)
    ensures var r := TrimEnd(s);
      && |r| <= |s| && r == s[..|r|]
      && AllWhitespace(s[|r|..])
      && (r == [] || !IsWhitespace(r[|r| - 1]))
    decreases |s|
  {
    if |s| > 0 && IsWhitespace(s[|s| - 1]) {
      var n := |s| - 1;
      TrimEndSpec(s[..n]);
      var r := TrimEnd(s[..n]);
      assert s[|r|..] == s[..n][|r|..] + [s[n]];
    }
  }

  /** `trim` returns the slice of `s` left once whitespace is removed from both ends. */
  lemma TrimSpec(s: string)
    ensures PaddedBy(s, Trim(s))
  {
    var t := TrimStart(s);
    var r := TrimEnd(t);
    TrimStartSpec(s);
    TrimEndSpec(t);
    var i := |s| - |t|;
    assert s[i..i + |r|] == r;
    assert s[i + |r|..] == t[|r|..];
  }

  predicate IsAsciiUpper(c: char) {
    'A' <= c <= 'Z'
  }

  /**
   * `toLowerCase` on one character. Exact for ASCII and for U+212A KELVIN SIGN,
   * the one non-ASCII character whose lower case is ASCII ('k'); every other
   * character is kept, so a lookup in a table of ASCII keys has the same outcome
   * as with the full Unicode mapping.
   */
  function LowerChar(c: char): (r: char)
    ensures !IsAsciiUpper(r)
    ensures IsWhitespace(r) <==> IsWhitespace(c)
  {
    if IsAsciiUpper(c) then (c as int + 32) as char
    else if c == '\U{212A}' then 'k'
    else c
  }

  /** Lower-casing, character by character. */
  function Lower(s: string): (r: string)
    ensures |r| == |s|
  {
    if s == [] then [] else [LowerChar(s[0])] + Lower(s[1..])
  }

  /** Two texts that agree once lower-cased. */
  predicate SameIgnoringCase(s: string, t: string) {
    Lower(s) == Lower(t)
  }

  /** `sub` stands in `s` starting at position `i`. */
  predicate OccursAt(s: string, sub: string, i: int) {
    0 <= i <= |s| - |sub| && s[i..i + |sub|] == sub
  }

  /** Whether `sub` stands somewhere in `s`. */
  function Includes(s: string, sub: string): (r: bool)
    ensures r <==> exists i :: OccursAt(s, sub, i)
    decreases |s|
  {
    if |s| < |sub| then false
    else if s[..|sub|] == sub then assert OccursAt(s, sub, 0); true
    else
      var r := Includes(s[1..], sub);
      assert r ==> exists i :: OccursAt(s, sub, i) by {
        if r {
          var i :| OccursAt(s[1..], sub, i);
          assert s[1..][i..i + |sub|] == s[i + 1..i + 1 + |sub|];
          assert OccursAt(s, sub, i + 1);
        }
      }
      assert (exists i :: OccursAt(s, sub, i)) ==> r by {
        if exists i :: OccursAt(s, sub, i) {
          var i :| OccursAt(s, sub, i);
          assert i != 0;
          assert s[1..][i - 1..i - 1 + |sub|] == s[i..i + |sub|];
          assert OccursAt(s[1..], sub, i - 1);
        }
      }
      r
  }

  /** Every comma removed, everything else kept in order. */
  function RemoveCommas(s: string): (r: string)
    ensures ',' !in r
    ensures |r| <= |s|
  {
    if s == [] then []
    else if s[0] == ',' then RemoveCommas(s[1..])
    else [s[0]] + RemoveCommas(s[1..])
  }

  // ---------------------------------------------------------------- lemmas

  /** Lower-casing and trimming commute, because lower-casing keeps whitespace as it is. */
  lemma {:induction false} LowerTrimStart(s: string)
    ensures Lower(TrimStart(s)) == TrimStart(Lower(s))
  {
    if |s| > 0 {
      assert Lower(s)[0] == LowerChar(s[0]);
      assert Lower(s)[1..] == Lower(s[1..]);
      if IsWhitespace(s[0]) {
        LowerTrimStart(s[1..]);
      }
    }
  }

  lemma {:induction false} LowerPrefix(s: string, n: nat)
    requires n <= |s|
    ensures Lower(s[..n]) == Lower(s)[..n]
  {
    if n > 0 {
      assert s[..n][1..] == s[1..][..n - 1];
      LowerPrefix(s[1..], n - 1);
    }
  }

  lemma {:induction false} LowerTrimEnd(s: string)
    ensures Lower(TrimEnd(s)) == TrimEnd(Lower(s))
    decreases |s|
  {
    if |s| > 0 {
      var n := |s| - 1;
      LowerAt(s, n);
      LowerPrefix(s, n);
      if IsWhitespace(s[n]) {
        LowerTrimEnd(s[..n]);
      }
    }
  }

  lemma {:induction false} LowerAt(s: string, k: nat)
    requires k < |s|
    ensures Lower(s)[k] == LowerChar(s[k])
  {
    if k > 0 {
      LowerAt(s[1..], k - 1);
    }
  }

  lemma LowerTrim(s: string)
    ensures Lower(Trim(s)) == Trim(Lower(s))
  {
    LowerTrimEnd(TrimStart(s));
    LowerTrimStart(s);
  }

  /** Trimming after lower-casing ignores case: texts equal up to case give the same key. */
  lemma TrimLowerIgnoresCase(s: string, t: string)
    requires SameIgnoringCase(s, t)
    ensures Lower(Trim(s)) == Lower(Trim(t))
  {
    LowerTrim(s);
    LowerTrim(t);
  }

  lemma {:induction false} TrimStartPadded(pad: string, s: string)
    requires AllWhitespace(pad)
    ensures TrimStart(pad + s) == TrimStart(s)
  {
    if pad != [] {
      assert (pad + s)[0] == pad[0];
      assert IsWhitespace(pad[0]);
      assert (pad + s)[1..] == pad[1..] + s;
      assert TrimStart(pad + s) == TrimStart(pad[1..] + s);
      assert AllWhitespace(pad[1..]) by {
        forall i | 0 <= i < |pad| - 1 ensures IsWhitespace(pad[1..][i]) {
          assert pad[1..][i] == pad[i + 1];
        }
      }
      TrimStartPadded(pad[1..], s);
    } else {
      assert pad + s == s;
    }
  }

  lemma {:induction false} TrimEndPadded(s: string, pad: string)
    requires AllWhitespace(pad)
    ensures TrimEnd(s + pad) == TrimEnd(s)
    decreases |pad|
  {
    if pad != [] {
      var n := |pad| - 1;
      assert (s + pad)[|s + pad| - 1] == pad[n];
      assert IsWhitespace(pad[n]);
      assert (s + pad)[..|s + pad| - 1] == s + pad[..n];
      assert TrimEnd(s + pad) == TrimEnd(s + pad[..n]);
      assert AllWhitespace(pad[..n]) by {
        forall i | 0 <= i < n ensures IsWhitespace(pad[..n][i]) {
          assert pad[..n][i] == pad[i];
        }
      }
      TrimEndPadded(s, pad[..n]);
    } else {
      assert s + pad == s;
    }
  }

  /** Surrounding whitespace does not change what `trim` returns. */
  lemma TrimPadded(left: string, s: string, right: string)
    requires AllWhitespace(left) && AllWhitespace(right)
    ensures Trim(left + s + right) == Trim(s)
  {
    assert left + s + right == left + (s + right);
    TrimStartPadded(left, s + right);
    if exists c :: c in s && !IsWhitespace(c) {
      TrimStartAppend(s, right);
      TrimEndPadded(TrimStart(s), right);
    } else {
      assert AllWhitespace(s + right);
      TrimStartSpec(s + right);
      TrimStartSpec(s);
    }
  }

  lemma {:induction false} TrimStartAppend(s: string, tail: string)
    requires exists c :: c in s && !IsWhitespace(c)
    ensures TrimStart(s + tail) == TrimStart(s) + tail
  {
    if IsWhitespace(s[0]) {
      assert (s + tail)[1..] == s[1..] + tail;
      var c :| c in s && !IsWhitespace(c);
      assert c in s[1..];
      TrimStartAppend(s[1..], tail);
    }
  }

  /** A window of `sub` inside a longer text is found by `includes`. */
  lemma IncludesMiddle(a: string, sub: string, b: string)
    ensures Includes(a + sub + b, sub)
  {
    var s := a + sub + b;
    assert s[|a|..|a| + |sub|] == sub;
    assert OccursAt(s, sub, |a|);
  }

  /** A text lacking the first character of `sub` cannot include `sub`. */
  lemma IncludesNeedsFirst(s: string, sub: string)
    requires sub != [] && sub[0] !in s
    ensures !Includes(s, sub)
  {
    forall i | 0 <= i <= |s| - |sub|
      ensures !OccursAt(s, sub, i)
    {
      assert s[i..i + |sub|][0] == s[i];
    }
  }

  lemma {:induction false} RemoveCommasAppend(a: string, b: string)
    ensures RemoveCommas(a + b) == RemoveCommas(a) + RemoveCommas(b)
  {
    if a != [] {
      assert (a + b)[0] == a[0];
      assert (a + b)[1..] == a[1..] + b;
      RemoveCommasAppend(a[1..], b);
      if a[0] == ',' {
        assert RemoveCommas(a + b) == RemoveCommas(a[1..] + b);
      } else {
        assert RemoveCommas(a + b) == [a[0]] + RemoveCommas(a[1..] + b);
        assert RemoveCommas(a) + RemoveCommas(b) == [a[0]] + (RemoveCommas(a[1..]) + RemoveCommas(b));
      }
    } else {
      assert a + b == b;
    }
  }

  /** Removing commas leaves a comma-free text as it is. */
  lemma {:induction false} RemoveCommasNone(s: string)
    requires ',' !in s
    ensures RemoveCommas(s) == s
  {
    if s != [] {
      assert ',' !in s[1..];
      RemoveCommasNone(s[1..]);
    }
  }
}
