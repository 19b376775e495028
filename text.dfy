/**
 * String primitives of the JavaScript runtime that the modelled code relies on:
 * `toLowerCase`/`toUpperCase` (ASCII letters only), `trim` with JavaScript's
 * whitespace set, `includes`, `startsWith`, decimal rendering of a port number
 * and single-character `replace(/c/g, ...)`.
 */
module Text {

  /** `c.toLowerCase()` for ASCII letters; every other character is kept. */
  function LowerChar(c: char): char
  {
    if 'A' <= c <= 'Z' then (c as int + 32) as char else c
  }

  /** `c.toUpperCase()` for ASCII letters; every other character is kept. */
  function UpperChar(c: char): char
  {
    if 'a' <= c <= 'z' then (c as int - 32) as char else c
  }

  function ToLower(s: string): (r: string)
    ensures |r| == |s|
    ensures forall i :: 0 <= i < |s| ==> r[i] == LowerChar(s[i])
  {
    if s == [] then [] else [LowerChar(s[0])] + ToLower(s[1..])
  }

  function ToUpper(s: string): (r: string)
    ensures |r| == |s|
    ensures forall i :: 0 <= i < |s| ==> r[i] == UpperChar(s[i])
  {
    if s == [] then [] else [UpperChar(s[0])] + ToUpper(s[1..])
  }

  /** The characters `String.prototype.trim` removes: WhiteSpace and LineTerminator of ECMA-262. */
  predicate IsJsWhitespace(c: char)
  {
    var n := c as int;
    n == 0x09 || n == 0x0A || n == 0x0B || n == 0x0C || n == 0x0D || n == 0x20
    || n == 0xA0 || n == 0x1680 || (0x2000 <= n <= 0x200A)
    || n == 0x2028 || n == 0x2029 || n == 0x202F || n == 0x205F || n == 0x3000 || n == 0xFEFF
  }

  /** `s.trim().length === 0`. */
  predicate IsBlank(s: string)
  {
    forall i :: 0 <= i < |s| ==> IsJsWhitespace(s[i])
  }

  function TrimStart(s: string): string
  {
    if s != [] && IsJsWhitespace(s[0]) then TrimStart(s[1..]) else s
  }

  function TrimEnd(s: string): string
  {
    if s != [] && IsJsWhitespace(s[|s| - 1]) then TrimEnd(s[..|s| - 1]) else s
  }

  /** `s.trim()`: leading and trailing whitespace removed. */
  function Trim(s: string): string
  {
    TrimEnd(TrimStart(s))
  }

  /** `trimStart` removes a blank prefix and stops at the first other character. */
  lemma {:induction false} TrimStartShape(s: string)
    ensures var r := TrimStart(s);
      |r| <= |s| && r == s[|s| - |r|..] && (r == [] || !IsJsWhitespace(r[0])) && IsBlank(s[..|s| - |r|])
  {
    if s != [] && IsJsWhitespace(s[0]) {
      TrimStartShape(s[1..]);
      var r := TrimStart(s);
      assert s[..|s| - |r|] == [s[0]] + s[1..][..|s| - 1 - |r|];
    }
  }

  /** `trimEnd` removes a blank suffix and stops at the last other character. */
  lemma {:induction false} TrimEndShape(s: string)
    ensures var r := TrimEnd(s);
      |r| <= |s| && r == s[..|r|] && (r == [] || !IsJsWhitespace(r[|r| - 1])) && IsBlank(s[|r|..])
  {
    if s != [] && IsJsWhitespace(s[|s| - 1]) {
      var t := s[..|s| - 1];
      TrimEndShape(t);
      var r := TrimEnd(s);
      assert s[|r|..] == t[|r|..] + [s[|s| - 1]];
    }
  }

  /** Trimming leaves nothing exactly when the string is all whitespace. */
  lemma TrimEmptyIffBlank(s: string)
    ensures |Trim(s)| == 0 <==> IsBlank(s)
  {
    var t := TrimStart(s);
    TrimStartShape(s);
    TrimEndShape(t);
    if |Trim(s)| == 0 {
      assert s == s[..|s| - |t|] + t;
    }
  }

  /** A trimmed string has no whitespace at either end and is a slice of its input. */
  lemma TrimShape(s: string)
    ensures var r := Trim(s);
      |r| <= |s|
      && (r == [] || (!IsJsWhitespace(r[0]) && !IsJsWhitespace(r[|r| - 1])))
      && exists i :: OccursAt(s, r, i)
  {
    var t := TrimStart(s);
    var r := TrimEnd(t);
    TrimStartShape(s);
    TrimEndShape(t);
    var i := |s| - |t|;
    assert r == t[..|r|];
    assert t == s[i..];
    assert s[i..i + |r|] == t[..|r|];
    assert OccursAt(s, r, i);
  }

  /** `s.includes(p)` tested at one position. */
  predicate OccursAt(s: string, p: string, i: int)
  {
    0 <= i && i + |p| <= |s| && s[i..i + |p|] == p
  }

  /** An occurrence inside either half of a concatenation is an occurrence in the whole. */
  lemma OccursAtAppend(a: string, b: string, p: string, i: int)
    ensures OccursAt(a, p, i) ==> OccursAt(a + b, p, i)
    ensures OccursAt(b, p, i) ==> OccursAt(a + b, p, |a| + i)
  {
    if OccursAt(a, p, i) {
      assert (a + b)[i..i + |p|] == a[i..i + |p|];
    }
    if OccursAt(b, p, i) {
      assert (a + b)[|a| + i..|a| + i + |p|] == b[i..i + |p|];
    }
  }

  /** `s.includes(p)`, as a left-to-right scan. */
  function Contains(s: string, p: string): (r: bool)
    ensures r <==> exists i :: OccursAt(s, p, i)
  {
    if |s| < |p| then false
    else if s[..|p|] == p then (assert OccursAt(s, p, 0); true)
    else
      var rest := Contains(s[1..], p);
      assert forall i :: OccursAt(s[1..], p, i) <==> OccursAt(s, p, i + 1) by {
        forall i ensures OccursAt(s[1..], p, i) <==> OccursAt(s, p, i + 1) {
          if 0 <= i && i + 1 + |p| <= |s| { assert s[1..][i..i + |p|] == s[i + 1..i + 1 + |p|]; }
        }
      }
      assert !OccursAt(s, p, 0);
      assert (exists i :: OccursAt(s, p, i)) ==> exists i :: OccursAt(s[1..], p, i) by {
        if exists i :: OccursAt(s, p, i) {
          var i :| OccursAt(s, p, i);
          assert OccursAt(s[1..], p, i - 1);
        }
      }
      rest
  }

  /** `s.startsWith(p)`. */
  predicate StartsWith(s: string, p: string)
  {
    |p| <= |s| && s[..|p|] == p
  }

  function DigitChar(d: nat): (c: char)
    requires d < 10
    ensures c as int - '0' as int == d
  {
    (d + '0' as int) as char
  }

  /** The decimal rendering `${n}` of a natural number (no sign, no leading zeros). */
  function NatToString(n: nat): (r: string)
    ensures |r| >= 1
    ensures forall i :: 0 <= i < |r| ==> '0' <= r[i] <= '9'
    ensures |r| > 1 ==> r[0] != '0'
  {
    if n < 10 then [DigitChar(n)] else NatToString(n / 10) + [DigitChar(n % 10)]
  }

  /** The number a string of decimal digits denotes. */
  function DigitsValue(s: string): nat
    requires forall i :: 0 <= i < |s| ==> '0' <= s[i] <= '9'
  {
    if s == [] then 0 else DigitsValue(s[..|s| - 1]) * 10 + (s[|s| - 1] as int - '0' as int)
  }

  /** Reading the rendering back gives the number: the port in a URL is the bound port. */
  lemma {:induction false} NatToStringRoundTrip(n: nat)
    ensures DigitsValue(NatToString(n)) == n
  {
    if n >= 10 {
      var s := NatToString(n);
      var q, d := n / 10, n % 10;
      assert s == NatToString(q) + [DigitChar(d)];
      assert s[..|s| - 1] == NatToString(q);
      NatToStringRoundTrip(q);
      assert DigitsValue(s) == DigitsValue(NatToString(q)) * 10 + d;
      assert n == q * 10 + d;
    }
  }

  /** Rendering is injective: two ports with the same text are the same port. */
  lemma NatToStringInjective(m: nat, n: nat)
    requires NatToString(m) == NatToString(n)
    ensures m == n
  {
    NatToStringRoundTrip(m);
    NatToStringRoundTrip(n);
  }

  /** `s.replace(/c/g, rep)` for a one-character pattern `c`. */
  function ReplaceChar(s: string, c: char, rep: string): (r: string)
    ensures c !in rep ==> c !in r
    ensures forall d :: d in r ==> d in s || d in rep
  {
    if s == [] then []
    else (if s[0] == c then rep else [s[0]]) + ReplaceChar(s[1..], c, rep)
  }

  /** On a one-character string the replacement either fires or leaves it alone. */
  lemma ReplaceCharSingle(x: char, c: char, rep: string)
    ensures ReplaceChar([x], c, rep) == if x == c then rep else [x]
  {
    assert [x][1..] == [];
  }

  /** Replacement of a single character works piecewise over concatenation. */
  lemma {:induction false} ReplaceCharAppend(a: string, b: string, c: char, rep: string)
    ensures ReplaceChar(a + b, c, rep) == ReplaceChar(a, c, rep) + ReplaceChar(b, c, rep)
  {
    if a != [] {
      assert (a + b)[1..] == a[1..] + b;
      ReplaceCharAppend(a[1..], b, c, rep);
    } else {
      assert a + b == b;
    }
  }

  /** A string without the pattern character is returned unchanged. */
  lemma {:induction false} ReplaceCharAbsent(s: string, c: char, rep: string)
    requires c !in s
    ensures ReplaceChar(s, c, rep) == s
  {
    if s != [] {
      assert c !in s[1..];
      ReplaceCharAbsent(s[1..], c, rep);
    }
  }

  /** Replacing a character by one character keeps every other position in place. */
  lemma {:induction false} ReplaceCharByChar(s: string, c: char, d: char)
    ensures |ReplaceChar(s, c, [d])| == |s|
    ensures forall i :: 0 <= i < |s| ==> ReplaceChar(s, c, [d])[i] == if s[i] == c then d else s[i]
  {
    if s != [] {
      ReplaceCharByChar(s[1..], c, d);
    }
  }

  /** Deleting a character from a run of that character leaves nothing. */
  lemma {:induction false} ReplaceCharDeletesRun(s: string, c: char)
    requires forall i :: 0 <= i < |s| ==> s[i] == c
    ensures ReplaceChar(s, c, "") == ""
  {
    if s != [] {
      ReplaceCharDeletesRun(s[1..], c);
    }
  }
}
