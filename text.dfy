/**
 * The JavaScript string built-ins the core relies on: `trim`, the `\s`
 * character class, `toLowerCase`, and `replace(/\s+/g, '-')`.
 */
module Text {

  /**
   * JavaScript white space and line terminators: the characters `trim`
   * strips and the regular-expression class `\s` matches.
   */
  predicate IsSpace(c: char)
  {
    || c == ' ' || c == '\t' || c == '\n' || c == '\r' || c == '\U{000B}' || c == '\U{000C}'
    || c == '\U{00A0}' || c == '\U{1680}' || ('\U{2000}' <= c <= '\U{200A}')
    || c == '\U{2028}' || c == '\U{2029}' || c == '\U{202F}' || c == '\U{205F}'
    || c == '\U{3000}' || c == '\U{FEFF}'
  }

  ghost predicate AllSpace(s: string)
  {
    forall i :: 0 <= i < |s| ==> IsSpace(s[i])
  }

  ghost predicate NoSpace(s: string)
  {
    forall i :: 0 <= i < |s| ==> !IsSpace(s[i])
  }

  /** No ASCII upper-case letter. */
  ghost predicate NoUpper(s: string)
  {
    forall i :: 0 <= i < |s| ==> !('A' <= s[i] <= 'Z')
  }

  function TrimStart(s: string): (r: string)
    ensures |r| <= |s| && r == s[|s| - |r|..]
    ensures AllSpace(s[..|s| - |r|])
    ensures r == [] || !IsSpace(r[0])
  {
    if s != [] && IsSpace(s[0]) then TrimStart(s[1..]) else s
  }

  function TrimEnd(s: string): (r: string)
    ensures |r| <= |s| && r == s[..|r|]
    ensures forall i :: |r| <= i < |s| ==> IsSpace(s[i])
    ensures r == [] || !IsSpace(r[|r| - 1])
  {
    if s != [] && IsSpace(s[|s| - 1]) then TrimEnd(s[..|s| - 1]) else s
  }

  /** `s.trim()`: the result neither starts nor ends with white space. */
  function Trim(s: string): (r: string)
    ensures |r| <= |s|
    ensures r == [] || (!IsSpace(r[0]) && !IsSpace(r[|r| - 1]))
  {
    var t := TrimStart(s);
    var r := TrimEnd(t);
    assert r != [] ==> r[0] == t[0];
    r
  }

  lemma SpaceSuffix(s: string, j: int)
    requires 0 <= j <= |s|
    requires forall i :: j <= i < |s| ==> IsSpace(s[i])
    ensures AllSpace(s[j..])
  {
    var u := s[j..];
    assert forall i :: 0 <= i < |u| ==> u[i] == s[j + i];
  }

  /** `r` sits in `s` at offset `k` with only white space before and after it. */
  ghost predicate TrimmedAt(s: string, r: string, k: int)
  {
    0 <= k <= |s| - |r| && s[k..k + |r|] == r && AllSpace(s[..k]) && AllSpace(s[k + |r|..])
  }

  /** The trimmed string sits inside `s` with only white space before and after it. */
  lemma TrimSpec(s: string)
    ensures exists k :: TrimmedAt(s, Trim(s), k)
  {
    var t := TrimStart(s);
    var r := TrimEnd(t);
    assert Trim(s) == r;
    TrimWitness(s, t, r);
    assert TrimmedAt(s, Trim(s), |s| - |t|);
  }

  /** A white-space-led suffix `t` of `s` and a white-space-followed prefix `r` of `t` place `r` in `s`. */
  lemma TrimWitness(s: string, t: string, r: string)
    requires |t| <= |s| && t == s[|s| - |t|..] && AllSpace(s[..|s| - |t|])
    requires |r| <= |t| && r == t[..|r|]
    requires forall i :: |r| <= i < |t| ==> IsSpace(t[i])
    ensures TrimmedAt(s, r, |s| - |t|)
  {
    var k := |s| - |t|;
    SpaceSuffix(t, |r|);
    assert s[k + |r|..] == t[|r|..];
    assert s[k..k + |r|] == r;
  }

  /** A string is blank after trimming exactly when it is all white space. */
  lemma TrimEmptyIffAllSpace(s: string)
    ensures Trim(s) == [] <==> AllSpace(s)
  {
    TrimSpec(s);
    if Trim(s) == [] {
      var k :| TrimmedAt(s, Trim(s), k);
      forall i | 0 <= i < |s| ensures IsSpace(s[i]) {
        if i < k { assert s[..k][i] == s[i]; } else { assert s[k..][i - k] == s[i]; }
      }
    }
  }

  /** Trimming a trimmed string changes nothing. */
  lemma TrimIdempotent(s: string)
    ensures Trim(Trim(s)) == Trim(s)
  {
    var t := Trim(s);
    if t != [] {
      assert TrimStart(t) == t;
      assert TrimEnd(t) == t;
    }
  }

  function LowerChar(c: char): (d: char)
  {
    if 'A' <= c <= 'Z' then (c as int + 32) as char else c
  }

  /** `s.toLowerCase()` on ASCII letters. */
  function ToLower(s: string): (r: string)
    ensures |r| == |s|
    ensures forall i :: 0 <= i < |s| ==> r[i] == LowerChar(s[i])
    ensures NoUpper(r)
    ensures forall i :: 0 <= i < |s| ==> (IsSpace(r[i]) <==> IsSpace(s[i]))
  {
    seq(|s|, i requires 0 <= i < |s| => LowerChar(s[i]))
  }

  /** Lowercasing an already lowercase string changes nothing. */
  lemma ToLowerIdempotent(s: string)
    ensures ToLower(ToLower(s)) == ToLower(s)
  {
  }

  /**
   * `s.replace(/\s+/g, '-')`: each maximal run of white space becomes a
   * single '-'; every other character is kept in place.
   */
  function ReplaceSpaceRuns(s: string): (r: string)
    ensures |r| <= |s|
    ensures NoSpace(r)
    ensures NoSpace(s) ==> r == s
    decreases |s|
  {
    if s == [] then []
    else if IsSpace(s[0]) then "-" + ReplaceSpaceRuns(TrimStart(s[1..]))
    else
      var rest := ReplaceSpaceRuns(s[1..]);
      assert NoSpace(s) ==> NoSpace(s[1..]) && s == [s[0]] + s[1..];
      [s[0]] + rest
  }

  /**
   * A run of white space between a part that does not end in white space
   * and a part that does not start with it becomes exactly one '-'.
   */
  lemma {:induction false} ReplaceSpaceRunsSplit(a: string, w: string, b: string)
    requires w != [] && AllSpace(w)
    requires a == [] || !IsSpace(a[|a| - 1])
    requires b == [] || !IsSpace(b[0])
    ensures ReplaceSpaceRuns(a + w + b) == ReplaceSpaceRuns(a) + "-" + ReplaceSpaceRuns(b)
    decreases |a|
  {
    if a == [] {
      assert a + w + b == w + b;
      LeadingRun(w, b);
    } else if !IsSpace(a[0]) {
      var t := a[1..];
      assert t != [] ==> t[|t| - 1] == a[|a| - 1];
      ReplaceSpaceRunsSplit(t, w, b);
      SplitKeptHead(a, w, b);
    } else {
      var t := a[1..];
      TrimStartPrefix(t, w + b);
      var d := TrimStart(t);
      ReplaceSpaceRunsSplit(d, w, b);
      SplitSpaceHead(a, w, b);
    }
  }

  /** The step of the split for a first part that starts with a kept character. */
  lemma SplitKeptHead(a: string, w: string, b: string)
    requires a != [] && !IsSpace(a[0])
    requires ReplaceSpaceRuns(a[1..] + w + b) == ReplaceSpaceRuns(a[1..]) + "-" + ReplaceSpaceRuns(b)
    ensures ReplaceSpaceRuns(a + w + b) == ReplaceSpaceRuns(a) + "-" + ReplaceSpaceRuns(b)
  {
    var t := a[1..];
    KeptHead(a, w + b);
    Assoc(t, w, b);
    Assoc(a, w, b);
    var rt, rb := ReplaceSpaceRuns(t), ReplaceSpaceRuns(b);
    assert ReplaceSpaceRuns(a) == [a[0]] + rt;
    Assoc([a[0]], rt, "-");
    Assoc([a[0]], rt + "-", rb);
  }

  /** The step of the split for a first part that starts with white space. */
  lemma SplitSpaceHead(a: string, w: string, b: string)
    requires a != [] && IsSpace(a[0])
    requires TrimStart(a[1..] + (w + b)) == TrimStart(a[1..]) + (w + b)
    requires ReplaceSpaceRuns(TrimStart(a[1..]) + w + b) == ReplaceSpaceRuns(TrimStart(a[1..])) + "-" + ReplaceSpaceRuns(b)
    ensures ReplaceSpaceRuns(a + w + b) == ReplaceSpaceRuns(a) + "-" + ReplaceSpaceRuns(b)
  {
    var d := TrimStart(a[1..]);
    SpaceHead(a, w + b);
    Assoc(a[1..], w, b);
    Assoc(d, w, b);
    Assoc(a, w, b);
    var rd, rb := ReplaceSpaceRuns(d), ReplaceSpaceRuns(b);
    assert ReplaceSpaceRuns(a) == "-" + rd;
    Assoc("-", rd, "-");
    Assoc("-", rd + "-", rb);
  }

  lemma Assoc(x: string, y: string, z: string)
    ensures x + (y + z) == x + y + z
  {
  }

  lemma LeadingRun(w: string, b: string)
    requires w != [] && AllSpace(w)
    requires b == [] || !IsSpace(b[0])
    ensures ReplaceSpaceRuns(w + b) == "-" + ReplaceSpaceRuns(b)
  {
    assert (w + b)[1..] == w[1..] + b;
    TrimStartRun(w[1..], b);
  }

  lemma KeptHead(a: string, y: string)
    requires a != [] && !IsSpace(a[0])
    ensures ReplaceSpaceRuns(a + y) == [a[0]] + ReplaceSpaceRuns(a[1..] + y)
  {
    assert (a + y)[0] == a[0];
    assert (a + y)[1..] == a[1..] + y;
  }

  lemma SpaceHead(a: string, y: string)
    requires a != [] && IsSpace(a[0])
    ensures ReplaceSpaceRuns(a + y) == "-" + ReplaceSpaceRuns(TrimStart(a[1..] + y))
  {
    assert (a + y)[0] == a[0];
    assert (a + y)[1..] == a[1..] + y;
  }

  /** Leading white space is dropped from the first part only when it holds a non-space. */
  lemma {:induction false} TrimStartPrefix(x: string, y: string)
    requires x != [] && !IsSpace(x[|x| - 1])
    ensures TrimStart(x + y) == TrimStart(x) + y && TrimStart(x) != []
    ensures TrimStart(x)[|TrimStart(x)| - 1] == x[|x| - 1]
    decreases |x|
  {
    assert (x + y)[0] == x[0];
    if IsSpace(x[0]) {
      assert (x + y)[1..] == x[1..] + y;
      TrimStartPrefix(x[1..], y);
    }
  }

  lemma {:induction false} TrimStartRun(w: string, b: string)
    requires AllSpace(w)
    requires b == [] || !IsSpace(b[0])
    ensures TrimStart(w + b) == b
    decreases |w|
  {
    if w == [] {
      assert w + b == b;
    } else {
      assert (w + b)[1..] == w[1..] + b;
      TrimStartRun(w[1..], b);
    }
  }

  /** Replacing white-space runs twice is the same as once. */
  lemma ReplaceSpaceRunsIdempotent(s: string)
    ensures ReplaceSpaceRuns(ReplaceSpaceRuns(s)) == ReplaceSpaceRuns(s)
  {
  }
}
