/** String operations the handlers and the client apply to their inputs:
    Python's `str.strip()` and `str.isspace()`, prefix and substring tests,
    ASCII case mapping, and the digit filter of the code input. */
module Text {

  /** Python's `str.isspace()` on one character: the ASCII whitespace
      characters, the information separators U+001C..U+001F, and the
      Unicode space separators and line/paragraph separators. */
  predicate IsSpace(c: char) {
    c == ' ' || ('\t' <= c <= '\r') || ('\U{1C}' <= c <= '\U{1F}')
    || c == '\U{85}' || c == '\U{A0}' || c == '\U{1680}'
    || ('\U{2000}' <= c <= '\U{200A}') || c == '\U{2028}' || c == '\U{2029}'
    || c == '\U{202F}' || c == '\U{205F}' || c == '\U{3000}'
  }

  predicate AllSpace(s: string) {
    forall i :: 0 <= i < |s| ==> IsSpace(s[i])
  }

  /** Leading whitespace removed. */
  function TrimStart(s: string): (r: string)
    ensures |r| <= |s| && r == s[|s| - |r|..]
    ensures forall i :: 0 <= i < |s| - |r| ==> IsSpace(s[i])
    ensures r == "" || !IsSpace(r[0])
  {
    if |s| > 0 && IsSpace(s[0]) then TrimStart(s[1..]) else s
  }

  /** Trailing whitespace removed. */
  function TrimEnd(s: string): (r: string)
    ensures |r| <= |s| && r == s[..|r|]
    ensures forall i :: |r| <= i < |s| ==> IsSpace(s[i])
    ensures r == "" || !IsSpace(r[|r| - 1])
  {
    if |s| > 0 && IsSpace(s[|s| - 1]) then TrimEnd(s[..|s| - 1]) else s
  }

  /** Python's `str.strip()` with no argument. */
  function Strip(s: string): (r: string)
    ensures |r| <= |s|
    ensures r == "" || (!IsSpace(r[0]) && !IsSpace(r[|r| - 1]))
  {
    TrimEnd(TrimStart(s))
  }

  /** `not s.strip()` in Python: the field counts as missing. */
  predicate IsBlank(s: string) {
    Strip(s) == ""
  }

  /** A string is blank after stripping exactly when every character is
      whitespace; in particular the empty string is blank. */
  lemma BlankIffAllSpace(s: string)
    ensures IsBlank(s) <==> AllSpace(s)
  {
    var t := TrimStart(s);
    if IsBlank(s) {
      assert t == "";
    } else {
      assert t != "";
      assert t[0] == s[|s| - |t|];
    }
  }

  /** What `TrimStart` removes is whitespace. */
  lemma TrimStartRemovesSpace(s: string)
    ensures AllSpace(s[..|s| - |TrimStart(s)|])
  {
    var a := |s| - |TrimStart(s)|;
    forall k | 0 <= k < a
      ensures IsSpace(s[..a][k])
    {
      assert s[..a][k] == s[k];
    }
  }

  /** What `TrimEnd` removes is whitespace. */
  lemma TrimEndRemovesSpace(t: string)
    ensures AllSpace(t[|TrimEnd(t)|..])
  {
    var b := |TrimEnd(t)|;
    forall k | 0 <= k < |t| - b
      ensures IsSpace(t[b..][k])
    {
      assert t[b..][k] == t[b + k];
    }
  }

  /** Stripping removes whitespace from the two ends and nothing else: the
      result is a slice of the input with only whitespace before and after
      it. */
  lemma StripIsSlice(s: string)
    ensures exists a, b :: 0 <= a <= b <= |s| && Strip(s) == s[a..b] && AllSpace(s[..a]) && AllSpace(s[b..])
  {
    var t := TrimStart(s);
    var r := TrimEnd(t);
    TrimStartRemovesSpace(s);
    TrimEndRemovesSpace(t);
    SuffixPrefixIsMiddle(s, t, r);
    SuffixTailIsSpace(s, t, r);
    var a, b := |s| - |t|, |s| - |t| + |r|;
    assert Strip(s) == s[a..b];
  }

  /** A prefix of a suffix is a middle slice. */
  lemma SuffixPrefixIsMiddle(s: string, t: string, r: string)
    requires |t| <= |s| && t == s[|s| - |t|..]
    requires |r| <= |t| && r == t[..|r|]
    ensures r == s[|s| - |t| .. |s| - |t| + |r|]
  {
    assert forall k :: 0 <= k < |r| ==> r[k] == s[|s| - |t| + k];
  }

  /** What follows a prefix of a suffix is the rest of the input. */
  lemma SuffixTailIsSpace(s: string, t: string, r: string)
    requires |t| <= |s| && t == s[|s| - |t|..]
    requires |r| <= |t| && AllSpace(t[|r|..])
    ensures AllSpace(s[|s| - |t| + |r|..])
  {
    assert t[|r|..] == s[|s| - |t| + |r|..];
  }

  /** A string that neither starts nor ends with whitespace is its own
      stripped form. */
  lemma StripKeepsTrimmed(s: string)
    requires s == "" || (!IsSpace(s[0]) && !IsSpace(s[|s| - 1]))
    ensures Strip(s) == s
  {
    assert TrimStart(s) == s;
    assert TrimEnd(s) == s;
  }

  /** A string of digits has no whitespace to strip. */
  lemma StripKeepsDigits(s: string)
    requires AllDigits(s)
    ensures Strip(s) == s
  {
    if s != "" {
      assert IsDigit(s[0]) && IsDigit(s[|s| - 1]);
    }
    StripKeepsTrimmed(s);
  }

  /** Stripping a stripped string changes nothing. */
  lemma StripIdempotent(s: string)
    ensures Strip(Strip(s)) == Strip(s)
  {
    StripKeepsTrimmed(Strip(s));
  }

  /** Python's `s.startswith(prefix)`. */
  predicate StartsWith(s: string, prefix: string) {
    |prefix| <= |s| && s[..|prefix|] == prefix
  }

  /** Python's `sub in s` on strings, and SQL `LIKE '%sub%'` without
      wildcards inside `sub`. */
  predicate Contains(s: string, sub: string)
    decreases |s|
  {
    StartsWith(s, sub) || (|s| > 0 && Contains(s[1..], sub))
  }

  /** `Contains` holds exactly when `sub` occurs at some position of `s`. */
  lemma {:induction false} ContainsAt(s: string, sub: string, k: nat)
    requires k + |sub| <= |s| && s[k..k + |sub|] == sub
    ensures Contains(s, sub)
    decreases k
  {
    if k == 0 {
      assert s[..|sub|] == sub;
    } else {
      assert s[1..][k - 1..k - 1 + |sub|] == s[k..k + |sub|];
      ContainsAt(s[1..], sub, k - 1);
    }
  }

  lemma {:induction false} ContainsHasPosition(s: string, sub: string) returns (k: nat)
    requires Contains(s, sub)
    ensures k + |sub| <= |s| && s[k..k + |sub|] == sub
    decreases |s|
  {
    if StartsWith(s, sub) {
      k := 0;
    } else {
      var j := ContainsHasPosition(s[1..], sub);
      assert s[1..][j..j + |sub|] == s[j + 1..j + 1 + |sub|];
      k := j + 1;
    }
  }

  function UpperChar(c: char): char {
    if 'a' <= c <= 'z' then (c as int - 'a' as int + 'A' as int) as char else c
  }

  function LowerChar(c: char): char {
    if 'A' <= c <= 'Z' then (c as int - 'A' as int + 'a' as int) as char else c
  }

  /** Python's `str.upper()`, on the ASCII letters. */
  function Upper(s: string): (r: string)
    ensures |r| == |s|
    ensures forall i :: 0 <= i < |s| ==> r[i] == UpperChar(s[i])
  {
    seq(|s|, i requires 0 <= i < |s| => UpperChar(s[i]))
  }

  /** The case folding behind PostgreSQL's `ILIKE`, on the ASCII letters. */
  function Lower(s: string): (r: string)
    ensures |r| == |s|
    ensures forall i :: 0 <= i < |s| ==> r[i] == LowerChar(s[i])
  {
    seq(|s|, i requires 0 <= i < |s| => LowerChar(s[i]))
  }

  /** Case-insensitive substring test: `s ILIKE '%sub%'`. */
  predicate ContainsIgnoringCase(s: string, sub: string) {
    Contains(Lower(s), Lower(sub))
  }

  predicate IsDigit(c: char) {
    '0' <= c <= '9'
  }

  predicate AllDigits(s: string) {
    forall i :: 0 <= i < |s| ==> IsDigit(s[i])
  }

  /** JavaScript's `s.replace(/\D/g, '')`: the digits of `s`, in order. */
  function OnlyDigits(s: string): (r: string)
    ensures AllDigits(r) && |r| <= |s|
    ensures forall c :: c in r <==> c in s && IsDigit(c)
    ensures AllDigits(s) ==> r == s
  {
    if s == "" then ""
    else if IsDigit(s[0]) then [s[0]] + OnlyDigits(s[1..])
    else OnlyDigits(s[1..])
  }

  /** Concatenation is associative; stated apart so that proofs about
      filters can use it without unfolding the filter again. */
  lemma Associates<T>(x: seq<T>, y: seq<T>, z: seq<T>)
    ensures x + (y + z) == (x + y) + z
  {
  }

  /** Filtering works piece by piece, so it keeps the digits in their
      original order. */
  lemma {:induction false} OnlyDigitsAppend(a: string, b: string)
    ensures OnlyDigits(a + b) == OnlyDigits(a) + OnlyDigits(b)
  {
    if a != "" {
      var head := if IsDigit(a[0]) then [a[0]] else "";
      assert (a + b)[0] == a[0];
      assert (a + b)[1..] == a[1..] + b;
      assert OnlyDigits(a + b) == head + OnlyDigits(a[1..] + b);
      assert OnlyDigits(a) == head + OnlyDigits(a[1..]);
      OnlyDigitsAppend(a[1..], b);
      Associates(head, OnlyDigits(a[1..]), OnlyDigits(b));
    } else {
      assert a + b == b;
    }
  }

  /** The first `n` characters (all of them when `s` is shorter). */
  function Take<T>(s: seq<T>, n: nat): (r: seq<T>)
    ensures |r| == if |s| <= n then |s| else n
    ensures r == s[..|r|]
  {
    if |s| <= n then s else s[..n]
  }
}
