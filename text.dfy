/** The string operations the services chain together to build slugs:
    JavaScript's `toLowerCase`, `trim`, global regular-expression replaces
    of a character class, and number-to-decimal conversion. */
module Text {

  /** The characters JavaScript's `\s` and `String.prototype.trim` treat as
      white space or line terminators. */
  predicate IsJsSpace(c: char)
  {
    c == '\t' || c == '\n' || c == '\U{000B}' || c == '\U{000C}' || c == '\r' || c == ' ' ||
    c == '\U{00A0}' || c == '\U{1680}' || ('\U{2000}' <= c <= '\U{200A}') ||
    c == '\U{2028}' || c == '\U{2029}' || c == '\U{202F}' || c == '\U{205F}' ||
    c == '\U{3000}' || c == '\U{FEFF}'
  }

  predicate IsLowerAlnum(c: char) { ('a' <= c <= 'z') || ('0' <= c <= '9') }

  /** `toLowerCase` on one character, for the ASCII letters. */
  function LowerAscii(c: char): char
  {
    if 'A' <= c <= 'Z' then (c as int + 32) as char else c
  }

  function ToLower(s: string): string
  {
    seq(|s|, i requires 0 <= i < |s| => LowerAscii(s[i]))
  }

  /** Drops the longest prefix whose characters all satisfy `p`. */
  function DropLeading(s: string, p: char -> bool): (r: string)
    ensures |r| <= |s|
    ensures r == [] || !p(r[0])
    ensures r == s[|s| - |r|..]
  {
    if s != [] && p(s[0]) then DropLeading(s[1..], p) else s
  }

  /** Drops the longest suffix whose characters all satisfy `p`. */
  function DropTrailing(s: string, p: char -> bool): (r: string)
    ensures |r| <= |s|
    ensures r == [] || !p(r[|r| - 1])
    ensures r == s[..|r|]
  {
    if s != [] && p(s[|s| - 1]) then DropTrailing(s[..|s| - 1], p) else s
  }

  function Trim(s: string): string
  {
    DropTrailing(DropLeading(s, IsJsSpace), IsJsSpace)
  }

  /** `s.replace(/[C]+/g, rep)`: every maximal run of characters of the class
      `inClass` becomes the single character `rep`. */
  function ReplaceRuns(s: string, inClass: char -> bool, rep: char): string
    decreases |s|
  {
    if s == [] then []
    else if inClass(s[0]) then [rep] + ReplaceRuns(DropLeading(s, inClass), inClass, rep)
    else [s[0]] + ReplaceRuns(s[1..], inClass, rep)
  }

  /** `s.replace(/[C]/g, '')`: keeps the characters that satisfy `keep`. */
  function Keep(s: string, keep: char -> bool): string
  {
    if s == [] then []
    else if keep(s[0]) then [s[0]] + Keep(s[1..], keep)
    else Keep(s[1..], keep)
  }

  /** No two neighbouring characters are both `c`. */
  predicate NoRepeat(s: string, c: char)
  {
    forall i :: 0 <= i < |s| - 1 ==> !(s[i] == c && s[i + 1] == c)
  }

  function DigitChar(d: nat): char
    requires d < 10
  {
    ('0' as int + d) as char
  }

  /** Decimal rendering of a natural number, as a template literal prints it. */
  function NatToString(n: nat): (r: string)
    ensures |r| >= 1
    ensures n >= 10 ==> |r| >= 2
    ensures forall i :: 0 <= i < |r| ==> '0' <= r[i] <= '9'
  {
    if n < 10 then [DigitChar(n)] else NatToString(n / 10) + [DigitChar(n % 10)]
  }

  // ---------------------------------------------------------------------
  // Properties
  // ---------------------------------------------------------------------

  /** Every character a run replacement produces is the replacement or a
      character of the input outside the class. */
  lemma {:induction false} ReplaceRunsChars(s: string, inClass: char -> bool, rep: char)
    ensures forall c :: c in ReplaceRuns(s, inClass, rep) ==> c == rep || (c in s && !inClass(c))
  {
    if s == [] {
    } else if inClass(s[0]) {
      var t := DropLeading(s, inClass);
      ReplaceRunsChars(t, inClass, rep);
      forall c | c in t ensures c in s { }
    } else {
      ReplaceRunsChars(s[1..], inClass, rep);
    }
  }

  /** The first character of a run replacement. */
  lemma ReplaceRunsHead(s: string, inClass: char -> bool, rep: char)
    requires s != []
    ensures ReplaceRuns(s, inClass, rep) != []
    ensures ReplaceRuns(s, inClass, rep)[0] == if inClass(s[0]) then rep else s[0]
  {
  }

  /** When the replacement belongs to the class it replaces, the output never
      holds the replacement twice in a row: each run shrinks to one character
      and whatever follows a run lies outside the class. */
  lemma {:induction false} ReplaceRunsNoRepeat(s: string, inClass: char -> bool, rep: char)
    requires inClass(rep)
    ensures NoRepeat(ReplaceRuns(s, inClass, rep), rep)
  {
    if s == [] {
    } else if inClass(s[0]) {
      var t := DropLeading(s, inClass);
      ReplaceRunsNoRepeat(t, inClass, rep);
      if t != [] {
        ReplaceRunsHead(t, inClass, rep);
      }
    } else {
      ReplaceRunsNoRepeat(s[1..], inClass, rep);
      if s[1..] != [] {
        ReplaceRunsHead(s[1..], inClass, rep);
      }
    }
  }

  /** A string with no character of the class is left as it is. */
  lemma {:induction false} ReplaceRunsNothingToDo(s: string, inClass: char -> bool, rep: char)
    requires forall i :: 0 <= i < |s| ==> !inClass(s[i])
    ensures ReplaceRuns(s, inClass, rep) == s
  {
    if s != [] {
      ReplaceRunsNothingToDo(s[1..], inClass, rep);
    }
  }

  /** Collapsing runs of a single character is the identity on a string in
      which that character never repeats. */
  lemma {:induction false} CollapseNoRepeat(s: string, inClass: char -> bool, c: char)
    requires forall x :: inClass(x) <==> x == c
    requires NoRepeat(s, c)
    ensures ReplaceRuns(s, inClass, c) == s
  {
    if s != [] {
      assert NoRepeat(s[1..], c) by {
        forall i | 0 <= i < |s[1..]| - 1 ensures !(s[1..][i] == c && s[1..][i + 1] == c) {
          assert s[1..][i] == s[i + 1] && s[1..][i + 1] == s[i + 2];
        }
      }
      if inClass(s[0]) {
        assert s[1..] == [] || s[1] != c;
        assert DropLeading(s[1..], inClass) == s[1..];
        CollapseNoRepeat(s[1..], inClass, c);
      } else {
        CollapseNoRepeat(s[1..], inClass, c);
      }
    }
  }

  lemma {:induction false} KeepChars(s: string, keep: char -> bool)
    ensures forall c :: c in Keep(s, keep) ==> keep(c) && c in s
  {
    if s != [] {
      KeepChars(s[1..], keep);
    }
  }

  lemma {:induction false} KeepEverything(s: string, keep: char -> bool)
    requires forall i :: 0 <= i < |s| ==> keep(s[i])
    ensures Keep(s, keep) == s
  {
    if s != [] {
      KeepEverything(s[1..], keep);
    }
  }

  /** Dropping a prefix or suffix keeps a string free of repeats. */
  lemma NoRepeatSlice(s: string, c: char, lo: nat, hi: nat)
    requires lo <= hi <= |s|
    requires NoRepeat(s, c)
    ensures NoRepeat(s[lo..hi], c)
  {
    forall i | 0 <= i < |s[lo..hi]| - 1 ensures !(s[lo..hi][i] == c && s[lo..hi][i + 1] == c) {
      assert s[lo..hi][i] == s[lo + i] && s[lo..hi][i + 1] == s[lo + i + 1];
    }
  }

  /** A string without white space is its own trim. */
  lemma TrimNoSpace(s: string)
    requires forall i :: 0 <= i < |s| ==> !IsJsSpace(s[i])
    ensures Trim(s) == s
  {
  }

  /** A string without upper-case ASCII letters is its own lower case. */
  lemma ToLowerNoUpper(s: string)
    requires forall i :: 0 <= i < |s| ==> !('A' <= s[i] <= 'Z')
    ensures ToLower(s) == s
  {
  }

  /** Different numbers print differently, so `base-1`, `base-2`, ... are
      pairwise distinct. */
  lemma {:induction false} NatToStringInjective(a: nat, b: nat)
    requires NatToString(a) == NatToString(b)
    ensures a == b
  {
    var sa, sb := NatToString(a), NatToString(b);
    if a < 10 && b < 10 {
      assert sa[0] == DigitChar(a) && sb[0] == DigitChar(b);
    } else if a >= 10 && b >= 10 {
      var pa, pb := NatToString(a / 10), NatToString(b / 10);
      assert sa == pa + [DigitChar(a % 10)] && sb == pb + [DigitChar(b % 10)];
      assert sa[|sa| - 1] == DigitChar(a % 10) && sb[|sb| - 1] == DigitChar(b % 10);
      assert pa == sa[..|sa| - 1] && pb == sb[..|sb| - 1];
      NatToStringInjective(a / 10, b / 10);
    }
  }
}
