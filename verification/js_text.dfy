/** The JavaScript string built-ins the core relies on: `trim()`, the `\s`
    character class, ASCII case mapping, global replacement of `\s+`, and
    decimal conversion between numbers and strings. */
module JsText {

  /** The characters JavaScript counts as white space for `trim()` and for
      `\s`: WhiteSpace (tab, vertical tab, form feed, space, no-break space,
      byte order mark, the Zs separators) and LineTerminator. */
  predicate IsWhitespace(c: char) {
    || c == '\t' || c == '\n' || c == '\U{B}' || c == '\U{C}' || c == '\r'
    || c == ' ' || c == '\U{A0}' || c == '\U{1680}'
    || ('\U{2000}' <= c <= '\U{200A}')
    || c == '\U{2028}' || c == '\U{2029}' || c == '\U{202F}' || c == '\U{205F}'
    || c == '\U{3000}' || c == '\U{FEFF}'
  }

  predicate AllWhitespace(s: string) {
    forall i :: 0 <= i < |s| ==> IsWhitespace(s[i])
  }

  predicate NoWhitespace(s: string) {
    forall i :: 0 <= i < |s| ==> !IsWhitespace(s[i])
  }

  lemma NoWhitespaceConcat(a: string, b: string)
    requires NoWhitespace(a) && NoWhitespace(b)
    ensures NoWhitespace(a + b)
  {
    forall i | 0 <= i < |a + b| ensures !IsWhitespace((a + b)[i]) {
      if i >= |a| {
        assert (a + b)[i] == b[i - |a|];
      }
    }
  }

  /** Neither the first nor the last character is white space. */
  predicate Trimmed(s: string) {
    s == [] || (!IsWhitespace(s[0]) && !IsWhitespace(s[|s| - 1]))
  }

  /** Drops the leading white space: the result is a suffix of `s`, what was
      dropped is all white space, and the result does not start with any. */
  function TrimStart(s: string): (r: string)
    ensures |r| <= |s| && r == s[|s| - |r|..]
    ensures forall i :: 0 <= i < |s| - |r| ==> IsWhitespace(s[i])
    ensures r == [] || !IsWhitespace(r[0])
  {
    if |s| > 0 && IsWhitespace(s[0]) then
      var r := TrimStart(s[1..]);
      assert forall i :: 1 <= i < |s| ==> s[i] == s[1..][i - 1];
      r
    else s
  }

  /** Drops the trailing white space: the result is a prefix of `s`, what was
      dropped is all white space, and the result does not end with any. */
  function TrimEnd(s: string): (r: string)
    ensures |r| <= |s| && r == s[..|r|]
    ensures forall i :: |r| <= i < |s| ==> IsWhitespace(s[i])
    ensures r == [] || !IsWhitespace(r[|r| - 1])
  {
    if |s| > 0 && IsWhitespace(s[|s| - 1]) then
      var r := TrimEnd(s[..|s| - 1]);
      r
    else s
  }

  /** `String.prototype.trim`: the middle part of `s` left after removing white
      space at both ends. */
  function Trim(s: string): (r: string)
    ensures |r| <= |s|
    ensures Trimmed(r)
  {
    TrimEnd(TrimStart(s))
  }

  /** `!s.trim()`: the string is empty once trimmed. */
  predicate IsBlank(s: string) {
    Trim(s) == []
  }

  lemma TrimStartKeepsNonWhitespace(s: string)
    requires s == [] || !IsWhitespace(s[0])
    ensures TrimStart(s) == s
  {
  }

  lemma TrimEndKeepsNonWhitespace(s: string)
    requires s == [] || !IsWhitespace(s[|s| - 1])
    ensures TrimEnd(s) == s
  {
  }

  /** A string that neither starts nor ends with white space is its own trim. */
  lemma TrimKeepsTrimmed(s: string)
    requires Trimmed(s)
    ensures Trim(s) == s
  {
    TrimStartKeepsNonWhitespace(s);
    TrimEndKeepsNonWhitespace(s);
  }

  lemma TrimIdempotent(s: string)
    ensures Trim(Trim(s)) == Trim(s)
  {
    TrimKeepsTrimmed(Trim(s));
  }

  /** A string trims to empty exactly when it is all white space. */
  lemma BlankIffAllWhitespace(s: string)
    ensures IsBlank(s) <==> AllWhitespace(s)
  {
    var t := TrimStart(s);
    if t != [] {
      assert !IsWhitespace(t[0]);
      assert AllWhitespace(t[|TrimEnd(t)|..]);
      assert s[|s| - |t|] == t[0];
    } else {
      assert s[..|s| - |t|] == s;
    }
  }

  /** Dropping white space from the front of `s` to get `t`, then from the
      back of `t` to get `r`, leaves `r` as a piece of `s` with white space
      on both sides. */
  lemma WhitespaceBounded(s: string, t: string, r: string)
    requires |t| <= |s| && t == s[|s| - |t|..]
    requires forall k :: 0 <= k < |s| - |t| ==> IsWhitespace(s[k])
    requires |r| <= |t| && r == t[..|r|]
    requires forall k :: |r| <= k < |t| ==> IsWhitespace(t[k])
    ensures exists i, j :: (0 <= i <= j <= |s| && r == s[i..j]
                            && AllWhitespace(s[..i]) && AllWhitespace(s[j..]))
  {
    var i := |s| - |t|;
    var j := i + |r|;
    assert AllWhitespace(s[..i]) by {
      forall k | 0 <= k < i ensures IsWhitespace(s[..i][k]) {
        assert s[..i][k] == s[k];
      }
    }
    assert AllWhitespace(s[j..]) by {
      forall k | 0 <= k < |s| - j ensures IsWhitespace(s[j..][k]) {
        assert s[j..][k] == t[|r| + k];
      }
    }
    assert r == s[i..j];
  }

  /** The result of trimming is a contiguous piece of the input: what is
      dropped at each end is white space. */
  lemma TrimIsInfix(s: string)
    ensures exists i, j :: (0 <= i <= j <= |s| && Trim(s) == s[i..j]
                            && AllWhitespace(s[..i]) && AllWhitespace(s[j..]))
  {
    var t := TrimStart(s);
    WhitespaceBounded(s, t, TrimEnd(t));
  }

  function ToUpperChar(c: char): char {
    if 'a' <= c <= 'z' then (c as int - 32) as char else c
  }

  function ToLowerChar(c: char): char {
    if 'A' <= c <= 'Z' then (c as int + 32) as char else c
  }

  /** `toUpperCase()` on the ASCII letters: same length, every lower-case
      ASCII letter mapped to its capital, everything else kept. */
  function ToUpper(s: string): (r: string)
    ensures |r| == |s|
    ensures forall i :: 0 <= i < |s| ==> r[i] == ToUpperChar(s[i])
  {
    seq(|s|, i requires 0 <= i < |s| => ToUpperChar(s[i]))
  }

  /** `toLowerCase()` on the ASCII letters. */
  function ToLower(s: string): (r: string)
    ensures |r| == |s|
    ensures forall i :: 0 <= i < |s| ==> r[i] == ToLowerChar(s[i])
  {
    seq(|s|, i requires 0 <= i < |s| => ToLowerChar(s[i]))
  }

  /** Lowering case works character by character, so it distributes over
      concatenation. */
  lemma ToLowerConcat(a: string, b: string)
    ensures ToLower(a + b) == ToLower(a) + ToLower(b)
  {
    var l, r := ToLower(a + b), ToLower(a) + ToLower(b);
    forall i | 0 <= i < |l| ensures l[i] == r[i] {
      if i >= |a| {
        assert (a + b)[i] == b[i - |a|];
      }
    }
  }

  /** Case mapping on ASCII letters never turns a character into white space
      or white space into something else. */
  lemma LowerKeepsWhitespace(c: char)
    ensures IsWhitespace(ToLowerChar(c)) <==> IsWhitespace(c)
  {
  }

  /** `s.replace(/\s+/g, rep)`: every maximal run of white space replaced by
      one copy of `rep`, read left to right. */
  function ReplaceWhitespaceRuns(s: string, rep: string): (r: string)
  {
    ReplaceRunsFrom(s, rep, false)
  }

  /** The replacement scan; `inRun` says whether the character before `s`
      was white space, whose run has already been replaced. */
  function ReplaceRunsFrom(s: string, rep: string, inRun: bool): (r: string)
    decreases |s|
  {
    if s == [] then []
    else if !IsWhitespace(s[0]) then [s[0]] + ReplaceRunsFrom(s[1..], rep, false)
    else if inRun then ReplaceRunsFrom(s[1..], rep, true)
    else rep + ReplaceRunsFrom(s[1..], rep, true)
  }

  /** With a replacement free of white space, no white space survives. */
  lemma ReplaceWhitespaceRunsLeavesNone(s: string, rep: string)
    requires NoWhitespace(rep)
    ensures NoWhitespace(ReplaceWhitespaceRuns(s, rep))
  {
    RunsFromLeaveNone(s, rep, false);
  }

  lemma {:induction false} RunsFromLeaveNone(s: string, rep: string, inRun: bool)
    requires NoWhitespace(rep)
    ensures NoWhitespace(ReplaceRunsFrom(s, rep, inRun))
    decreases |s|
  {
    if s != [] {
      var b := IsWhitespace(s[0]);
      RunsFromLeaveNone(s[1..], rep, b);
      var t := ReplaceRunsFrom(s[1..], rep, b);
      if !b {
        NoWhitespaceConcat([s[0]], t);
      } else if !inRun {
        NoWhitespaceConcat(rep, t);
      }
    }
  }

  /** A string without white space is left as it is. */
  lemma {:induction false} ReplaceWhitespaceRunsKeepsPlain(s: string, rep: string)
    requires NoWhitespace(s)
    ensures ReplaceWhitespaceRuns(s, rep) == s
    decreases |s|
  {
    if s != [] {
      ReplaceWhitespaceRunsKeepsPlain(s[1..], rep);
    }
  }

  /** A string that does not end in white space closes every run it holds,
      so the scan handles it and what follows independently. */
  lemma {:induction false} RunsFromAppend(x: string, z: string, rep: string, inRun: bool)
    requires x != [] && !IsWhitespace(x[|x| - 1])
    ensures ReplaceRunsFrom(x + z, rep, inRun)
            == ReplaceRunsFrom(x, rep, inRun) + ReplaceWhitespaceRuns(z, rep)
    decreases |x|
  {
    var t, b := x[1..], IsWhitespace(x[0]);
    assert (x + z)[0] == x[0] && (x + z)[1..] == t + z;
    var tail := ReplaceRunsFrom(t + z, rep, b);
    if |x| == 1 {
      assert t + z == z && t == [] && !b;
      assert ReplaceRunsFrom(x, rep, inRun) == [x[0]];
    } else {
      RunsFromAppend(t, z, rep, b);
      var h := if !b then [x[0]] else if inRun then [] else rep;
      assert ReplaceRunsFrom(x + z, rep, inRun) == h + tail;
      assert ReplaceRunsFrom(x, rep, inRun) == h + ReplaceRunsFrom(t, rep, b);
      assert h + (ReplaceRunsFrom(t, rep, b) + ReplaceWhitespaceRuns(z, rep))
          == (h + ReplaceRunsFrom(t, rep, b)) + ReplaceWhitespaceRuns(z, rep);
    }
  }

  /** A white-space run entered from inside a run adds nothing. */
  lemma {:induction false} RunsFromSkipsRun(w: string, y: string, rep: string)
    requires AllWhitespace(w)
    requires y == [] || !IsWhitespace(y[0])
    ensures ReplaceRunsFrom(w + y, rep, true) == ReplaceWhitespaceRuns(y, rep)
    decreases |w|
  {
    if w == [] {
      assert w + y == y;
    } else {
      assert (w + y)[0] == w[0] && (w + y)[1..] == w[1..] + y;
      RunsFromSkipsRun(w[1..], y, rep);
    }
  }

  /** A run of white space followed by something else becomes one `rep`. */
  lemma RunsFromOpensRun(w: string, y: string, rep: string)
    requires w != [] && AllWhitespace(w)
    requires y == [] || !IsWhitespace(y[0])
    ensures ReplaceWhitespaceRuns(w + y, rep) == rep + ReplaceWhitespaceRuns(y, rep)
  {
    assert (w + y)[0] == w[0] && (w + y)[1..] == w[1..] + y;
    RunsFromSkipsRun(w[1..], y, rep);
  }

  /** One maximal run of white space, however long, becomes exactly one copy
      of `rep`, and the text on either side is handled on its own. */
  lemma ReplaceWhitespaceRunsJoin(x: string, w: string, y: string, rep: string)
    requires x == [] || !IsWhitespace(x[|x| - 1])
    requires w != [] && AllWhitespace(w)
    requires y == [] || !IsWhitespace(y[0])
    ensures ReplaceWhitespaceRuns(x + w + y, rep)
            == ReplaceWhitespaceRuns(x, rep) + rep + ReplaceWhitespaceRuns(y, rep)
  {
    RunsFromOpensRun(w, y, rep);
    if x == [] {
      assert x + w + y == w + y;
    } else {
      assert x + w + y == x + (w + y);
      RunsFromAppend(x, w + y, rep, false);
    }
  }

  predicate IsDigit(c: char) {
    '0' <= c <= '9'
  }

  predicate AllDigits(s: string) {
    forall i :: 0 <= i < |s| ==> IsDigit(s[i])
  }

  function DigitChar(d: nat): (c: char)
    requires d < 10
    ensures IsDigit(c)
  {
    ('0' as int + d) as char
  }

  /** The decimal numeral of `n`, as template literals print a non-negative
      integer: no sign, no leading zeros, "0" for zero. */
  function NatToString(n: nat): (r: string)
    ensures |r| > 0 && AllDigits(r)
    ensures r[0] == '0' ==> n == 0
  {
    if n < 10 then [DigitChar(n)]
    else
      var r := NatToString(n / 10) + [DigitChar(n % 10)];
      assert r[0] == NatToString(n / 10)[0];
      r
  }

  /** `Number(s)` on a string of decimal digits. */
  function ParseDecimal(s: string): nat
    requires AllDigits(s)
  {
    if s == [] then 0
    else ParseDecimal(s[..|s| - 1]) * 10 + (s[|s| - 1] as int - '0' as int)
  }

  /** Reading back a printed number gives the number. */
  lemma {:induction false} ParseNatToString(n: nat)
    ensures ParseDecimal(NatToString(n)) == n
  {
    if n >= 10 {
      var p := NatToString(n / 10);
      var r := p + [DigitChar(n % 10)];
      assert r[..|r| - 1] == p;
      ParseNatToString(n / 10);
    }
  }

  /** Different numbers print differently. */
  lemma NatToStringInjective(m: nat, n: nat)
    requires NatToString(m) == NatToString(n)
    ensures m == n
  {
    ParseNatToString(m);
    ParseNatToString(n);
  }

  /** A value a `catch` clause receives: an `Error`, with its message, or
      anything else that was thrown. */
  datatype Thrown = JsError(message: string) | NonError

  /** `e instanceof Error ? e.message : fallback`. */
  function MessageOr(t: Thrown, fallback: string): string {
    match t
    case JsError(m) => m
    case NonError => fallback
  }
}
