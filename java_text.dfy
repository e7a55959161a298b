/** The `java.lang.String` operations the model relies on: `trim()`,
    `toUpperCase()`, `toLowerCase()` and the blankness test of `@NotBlank`.
    Case mapping is modelled over ASCII letters only. */
module JavaText {

  /** A character `String.trim()` removes: any code point up to U+0020. */
  predicate IsTrimmable(c: char) {
    c <= ' '
  }

  /** Every character of `s` is one that `trim()` removes. */
  predicate AllTrimmable(s: string) {
    forall k :: 0 <= k < |s| ==> IsTrimmable(s[k])
  }

  /** `s` with its leading trimmable characters removed. */
  function TrimStart(s: string): (r: string) {
    if |s| > 0 && IsTrimmable(s[0]) then TrimStart(s[1..]) else s
  }

  /** `s` with its trailing trimmable characters removed. */
  function TrimEnd(s: string): (r: string) {
    if |s| > 0 && IsTrimmable(s[|s| - 1]) then TrimEnd(s[..|s| - 1]) else s
  }

  /** `String.trim()`: both ends stripped of characters up to U+0020. */
  function Trim(s: string): (r: string) {
    TrimEnd(TrimStart(s))
  }

  /** `TrimStart` keeps a suffix of its input, drops only trimmable
      characters, and stops at the first character it must keep. */
  lemma {:induction false} TrimStartShape(s: string)
    ensures |TrimStart(s)| <= |s| && TrimStart(s) == s[|s| - |TrimStart(s)|..]
    ensures AllTrimmable(s[..|s| - |TrimStart(s)|])
    ensures TrimStart(s) == [] || !IsTrimmable(TrimStart(s)[0])
  {
    if |s| > 0 && IsTrimmable(s[0]) {
      TrimStartShape(s[1..]);
      var r := TrimStart(s);
      assert s[..|s| - |r|] == [s[0]] + s[1..][..|s| - 1 - |r|];
    }
  }

  /** `TrimEnd` keeps a prefix of its input, drops only trimmable
      characters, and stops at the last character it must keep. */
  lemma {:induction false} TrimEndShape(s: string)
    ensures |TrimEnd(s)| <= |s| && TrimEnd(s) == s[..|TrimEnd(s)|]
    ensures AllTrimmable(s[|TrimEnd(s)|..])
    ensures TrimEnd(s) == [] || !IsTrimmable(TrimEnd(s)[|TrimEnd(s)| - 1])
  {
    if |s| > 0 && IsTrimmable(s[|s| - 1]) {
      TrimEndShape(s[..|s| - 1]);
      var r := TrimEnd(s);
      assert s[|r|..] == s[..|s| - 1][|r|..] + [s[|s| - 1]];
    }
  }

  /** What `trim()` returns is empty or starts and ends with a kept
      character, and is never longer than its input. */
  lemma TrimShape(s: string)
    ensures |Trim(s)| <= |s|
    ensures Trim(s) == [] || (!IsTrimmable(Trim(s)[0]) && !IsTrimmable(Trim(s)[|Trim(s)| - 1]))
  {
    var t := TrimStart(s);
    TrimStartShape(s);
    TrimEndShape(t);
    var r := TrimEnd(t);
    if r != [] {
      assert r[0] == t[0];
    }
  }

  /** Blank in the sense of `@NotBlank`: `trim()` leaves nothing. */
  predicate IsBlank(s: string) {
    Trim(s) == []
  }

  /** A string is blank exactly when every character of it is trimmable. */
  lemma {:induction false} BlankIffAllTrimmable(s: string)
    ensures IsBlank(s) <==> AllTrimmable(s)
  {
    var t := TrimStart(s);
    TrimStartShape(s);
    TrimEndShape(t);
    if IsBlank(s) {
      assert t[0..] == t;
      assert t == [];
      assert s[..|s|] == s;
    } else {
      var r := Trim(s);
      assert t[..|r|] == r;
      assert t[0] == r[0];
      assert s[|s| - |t|] == t[0];
    }
  }

  /** Leading trimmable characters do not change `TrimStart`. */
  lemma {:induction false} TrimStartSkipsPadding(w: string, s: string)
    requires AllTrimmable(w)
    ensures TrimStart(w + s) == TrimStart(s)
  {
    if w != [] {
      var ws, w' := w + s, w[1..];
      assert IsTrimmable(ws[0]) by { assert ws[0] == w[0]; }
      assert ws[1..] == w' + s;
      assert AllTrimmable(w') by {
        forall k | 0 <= k < |w'| ensures IsTrimmable(w'[k]) { assert w'[k] == w[k + 1]; }
      }
      calc {
        TrimStart(ws);
        TrimStart(ws[1..]);
        TrimStart(w' + s);
        { TrimStartSkipsPadding(w', s); }
        TrimStart(s);
      }
    } else {
      assert w + s == s;
    }
  }

  /** Trailing trimmable characters do not change `TrimEnd`. */
  lemma {:induction false} TrimEndSkipsPadding(s: string, w: string)
    requires AllTrimmable(w)
    ensures TrimEnd(s + w) == TrimEnd(s)
  {
    if w != [] {
      var w' := w[..|w| - 1];
      assert (s + w)[|s + w| - 1] == w[|w| - 1];
      assert (s + w)[..|s + w| - 1] == s + w';
      assert AllTrimmable(w') by {
        forall k | 0 <= k < |w'| ensures IsTrimmable(w'[k]) { assert w'[k] == w[k]; }
      }
      calc {
        TrimEnd(s + w);
        TrimEnd((s + w)[..|s + w| - 1]);
        TrimEnd(s + w');
        { TrimEndSkipsPadding(s, w'); }
        TrimEnd(s);
      }
    } else {
      assert s + w == s;
    }
  }

  /** When `s` holds a character `trim()` keeps, trailing text passes
      through `TrimStart` untouched. */
  lemma {:induction false} TrimStartKeepsTail(s: string, w: string)
    requires !AllTrimmable(s)
    ensures TrimStart(s + w) == TrimStart(s) + w
  {
    assert s != [];
    if IsTrimmable(s[0]) {
      assert (s + w)[1..] == s[1..] + w;
      assert !AllTrimmable(s[1..]) by {
        var k :| 0 <= k < |s| && !IsTrimmable(s[k]);
        assert s[1..][k - 1] == s[k];
      }
      TrimStartKeepsTail(s[1..], w);
    }
  }

  /** Padding a string on both sides with trimmable characters does not
      change what `trim()` returns. */
  lemma {:induction false} PaddingIsTrimmed(w1: string, s: string, w2: string)
    requires AllTrimmable(w1) && AllTrimmable(w2)
    ensures Trim(w1 + s + w2) == Trim(s)
  {
    assert w1 + s + w2 == w1 + (s + w2);
    TrimStartSkipsPadding(w1, s + w2);
    if AllTrimmable(s) {
      AllTrimmableConcat(s, w2);
      BlankIffAllTrimmable(s + w2);
      BlankIffAllTrimmable(s);
    } else {
      TrimStartKeepsTail(s, w2);
      TrimEndSkipsPadding(TrimStart(s), w2);
    }
  }

  /** Two all-trimmable strings concatenate to an all-trimmable one. */
  lemma AllTrimmableConcat(s: string, w: string)
    requires AllTrimmable(s) && AllTrimmable(w)
    ensures AllTrimmable(s + w)
  {
    forall k | 0 <= k < |s + w|
      ensures IsTrimmable((s + w)[k])
    {
      if k < |s| { assert (s + w)[k] == s[k]; } else { assert (s + w)[k] == w[k - |s|]; }
    }
  }

  /** A string that starts and ends with kept characters is its own trim. */
  lemma TrimmedAlready(s: string)
    requires s == [] || (!IsTrimmable(s[0]) && !IsTrimmable(s[|s| - 1]))
    ensures Trim(s) == s
  {
  }

  /** `Character.toUpperCase` on an ASCII letter; other characters are kept. */
  function UpperChar(c: char): (u: char) {
    if 'a' <= c <= 'z' then (c as int - 32) as char else c
  }

  /** `Character.toLowerCase` on an ASCII letter; other characters are kept. */
  function LowerChar(c: char): (l: char) {
    if 'A' <= c <= 'Z' then (c as int + 32) as char else c
  }

  /** `String.toUpperCase()`, character by character. */
  function ToUpperCase(s: string): (r: string) {
    if s == [] then [] else [UpperChar(s[0])] + ToUpperCase(s[1..])
  }

  /** `String.toLowerCase()`, character by character. */
  function ToLowerCase(s: string): (r: string) {
    if s == [] then [] else [LowerChar(s[0])] + ToLowerCase(s[1..])
  }

  /** Upper-casing maps each character on its own and keeps the length. */
  lemma {:induction false} ToUpperCaseAt(s: string)
    ensures |ToUpperCase(s)| == |s|
    ensures forall k :: 0 <= k < |s| ==> ToUpperCase(s)[k] == UpperChar(s[k])
  {
    if s != [] {
      ToUpperCaseAt(s[1..]);
    }
  }

  /** Lower-casing maps each character on its own and keeps the length. */
  lemma {:induction false} ToLowerCaseAt(s: string)
    ensures |ToLowerCase(s)| == |s|
    ensures forall k :: 0 <= k < |s| ==> ToLowerCase(s)[k] == LowerChar(s[k])
  {
    if s != [] {
      ToLowerCaseAt(s[1..]);
    }
  }

  /** `t` is the upper-case form of `s` when it agrees with it character by
      character. */
  lemma UpperCaseIs(s: string, t: string)
    requires |s| == |t| && forall k :: 0 <= k < |s| ==> UpperChar(s[k]) == t[k]
    ensures ToUpperCase(s) == t
  {
    ToUpperCaseAt(s);
  }

  /** `t` is the lower-case form of `s` when it agrees with it character by
      character. */
  lemma LowerCaseIs(s: string, t: string)
    requires |s| == |t| && forall k :: 0 <= k < |s| ==> LowerChar(s[k]) == t[k]
    ensures ToLowerCase(s) == t
  {
    ToLowerCaseAt(s);
  }

  /** Lower-casing forgets an earlier upper-casing: both leave the
      lower-case spelling. */
  lemma {:induction false} LowerOfUpper(s: string)
    ensures ToLowerCase(ToUpperCase(s)) == ToLowerCase(s)
  {
    ToUpperCaseAt(s);
    ToLowerCaseAt(ToUpperCase(s));
    ToLowerCaseAt(s);
  }

  /** Upper-casing forgets an earlier lower-casing. */
  lemma {:induction false} UpperOfLower(s: string)
    ensures ToUpperCase(ToLowerCase(s)) == ToUpperCase(s)
  {
    ToLowerCaseAt(s);
    ToUpperCaseAt(ToLowerCase(s));
    ToUpperCaseAt(s);
  }
}
