/**
 * The Python string operations the client relies on: `str.find`,
 * `str.split(sep)` with an explicit separator, and `str.strip()` with no
 * argument (which removes the characters for which `str.isspace` holds).
 */
module PyStr {
  import opened Wrappers

  /** `sep` occurs in `s` starting at index i. */
  predicate OccursAt(s: string, sep: string, i: nat) {
    i + |sep| <= |s| && s[i..i + |sep|] == sep
  }

  /** `sep in s`. */
  predicate Contains(s: string, sep: string) {
    exists i: nat :: i <= |s| && OccursAt(s, sep, i)
  }

  predicate EndsWith(s: string, suffix: string) {
    |suffix| <= |s| && s[|s| - |suffix|..] == suffix
  }

  /** `s.find(sep, i)`: the first occurrence of sep at or after i, None for -1. */
  function FindFrom(s: string, sep: string, i: nat): (r: Option<nat>)
    requires i <= |s|
    decreases |s| - i
    ensures r.Some? ==> i <= r.value && OccursAt(s, sep, r.value)
    ensures r.Some? ==> forall j: nat :: i <= j < r.value ==> !OccursAt(s, sep, j)
    ensures r.None? ==> forall j: nat :: i <= j ==> !OccursAt(s, sep, j)
  {
    if i + |sep| > |s| then None
    else if s[i..i + |sep|] == sep then Some(i)
    else FindFrom(s, sep, i + 1)
  }

  function Find(s: string, sep: string): (r: Option<nat>)
    ensures r.Some? <==> Contains(s, sep)
    ensures r.Some? ==> OccursAt(s, sep, r.value) && forall j: nat :: j < r.value ==> !OccursAt(s, sep, j)
  {
    FindFrom(s, sep, 0)
  }

  /** An occurrence with none before it is the one Find reports. */
  lemma FindFirst(s: string, sep: string, k: nat)
    requires OccursAt(s, sep, k)
    requires forall j: nat :: j < k ==> !OccursAt(s, sep, j)
    ensures Find(s, sep) == Some(k)
  {
    assert Contains(s, sep);
  }

  /**
   * `s.split(sep)`: the pieces between the occurrences of sep, each found
   * from the left, never overlapping. An empty sep raises ValueError in
   * Python; callers only pass non-empty literals.
   */
  function Split(s: string, sep: string): (parts: seq<string>)
    requires |sep| > 0
    decreases |s|
    ensures |parts| >= 1
  {
    match Find(s, sep)
    case None => [s]
    case Some(i) => [s[..i]] + Split(s[i + |sep|..], sep)
  }

  /** `sep.join(parts)`. */
  function Join(parts: seq<string>, sep: string): string {
    if |parts| == 0 then ""
    else if |parts| == 1 then parts[0]
    else parts[0] + sep + Join(parts[1..], sep)
  }

  /** Joining the pieces with the separator gives the string back. */
  lemma {:induction false} SplitJoin(s: string, sep: string)
    requires |sep| > 0
    decreases |s|
    ensures Join(Split(s, sep), sep) == s
  {
    var r := Find(s, sep);
    if r.Some? {
      var i := r.value;
      var rest := s[i + |sep|..];
      var parts := Split(rest, sep);
      assert Split(s, sep) == [s[..i]] + parts;
      SplitJoin(rest, sep);
      JoinCons(s[..i], parts, sep);
      Recompose(s, i, sep);
    }
  }

  /** A string is its text before i, the separator found at i, and the rest. */
  lemma Recompose(s: string, i: nat, sep: string)
    requires OccursAt(s, sep, i)
    ensures s[..i] + sep + s[i + |sep|..] == s
  {
    assert s == s[..i] + s[i..i + |sep|] + s[i + |sep|..];
  }

  lemma JoinCons(x: string, tail: seq<string>, sep: string)
    requires |tail| >= 1
    ensures Join([x] + tail, sep) == x + sep + Join(tail, sep)
  {
    assert ([x] + tail)[1..] == tail;
  }

  /** No piece of a split contains the separator. */
  lemma {:induction false} SplitPartsClean(s: string, sep: string)
    requires |sep| > 0
    decreases |s|
    ensures forall k :: 0 <= k < |Split(s, sep)| ==> !Contains(Split(s, sep)[k], sep)
  {
    match Find(s, sep)
    case None =>
    case Some(i) =>
      var rest := s[i + |sep|..];
      var parts := Split(rest, sep);
      var all := Split(s, sep);
      SplitPartsClean(rest, sep);
      PrefixClean(s, sep, i);
      assert all == [s[..i]] + parts;
      forall k | 0 <= k < |all|
        ensures !Contains(all[k], sep)
      {
        if k > 0 {
          assert all[k] == parts[k - 1];
        }
      }
  }

  /** The text before the first occurrence does not contain the separator. */
  lemma PrefixClean(s: string, sep: string, i: nat)
    requires |sep| > 0 && i <= |s|
    requires forall j: nat :: j < i ==> !OccursAt(s, sep, j)
    ensures !Contains(s[..i], sep)
  {
    forall j: nat | j <= i
      ensures !OccursAt(s[..i], sep, j)
    {
      if j + |sep| <= i {
        assert s[..i][j..j + |sep|] == s[j..j + |sep|];
        assert !OccursAt(s, sep, j);
      }
    }
  }

  /** A string without the separator splits into itself alone. */
  lemma SplitNone(s: string, sep: string)
    requires |sep| > 0 && !Contains(s, sep)
    ensures Split(s, sep) == [s]
  {
  }

  /** When the separator right after `a` is its first occurrence, `a` is the first piece. */
  lemma SplitAt(a: string, sep: string, b: string)
    requires |sep| > 0
    requires Find(a + sep + b, sep) == Some(|a|)
    ensures Split(a + sep + b, sep) == [a] + Split(b, sep)
  {
    var s := a + sep + b;
    assert s[..|a|] == a;
    assert s[|a| + |sep|..] == b;
  }

  /** A single-character separator absent from `a` first occurs right after it. */
  lemma FindChar(a: string, c: char, b: string)
    requires c !in a
    ensures Find(a + [c] + b, [c]) == Some(|a|)
  {
    var s := a + [c] + b;
    assert s[|a|..|a| + 1] == [c];
    forall j: nat | j < |a|
      ensures !OccursAt(s, [c], j)
    {
      assert s[j..j + 1] == [a[j]];
    }
    FindFirst(s, [c], |a|);
  }

  /** Splitting on a single character absent from `a` takes `a` off the front. */
  lemma SplitChar(a: string, c: char, b: string)
    requires c !in a
    ensures Split(a + [c] + b, [c]) == [a] + Split(b, [c])
  {
    FindChar(a, c, b);
    SplitAt(a, [c], b);
  }

  /** A single character absent from s does not occur in it. */
  lemma NoChar(s: string, c: char)
    requires c !in s
    ensures !Contains(s, [c])
  {
    forall j: nat | j <= |s|
      ensures !OccursAt(s, [c], j)
    {
      if j + 1 <= |s| {
        assert s[j..j + 1] == [s[j]];
      }
    }
  }

  /** The separator of a listing line and of a file entry. */
  const DASH: string := " - "

  /**
   * `a` neither contains `" - "` nor ends in `" -"`; these are exactly the
   * strings for which the first `" - "` in `a + " - " + b` is the one
   * after `a`, whatever b is.
   */
  predicate DashFree(a: string) {
    !Contains(a, DASH) && !EndsWith(a, " -")
  }

  lemma FindDash(a: string, b: string)
    requires DashFree(a)
    ensures Find(a + DASH + b, DASH) == Some(|a|)
  {
    var s := a + DASH + b;
    assert s == a + (DASH + b);
    assert s[|a|..|a| + 3] == DASH;
    forall j: nat | j < |a|
      ensures !OccursAt(s, DASH, j)
    {
      if j + 3 <= |a| {
        SliceOfConcat(a, DASH + b, j, 3);
        assert !OccursAt(a, DASH, j);
      } else if j + 2 == |a| {
        assert s[j] == a[j] && s[j + 1] == a[j + 1];
        assert a[|a| - 2..] == [a[j], a[j + 1]];
      } else {
        assert s[j + 1] == ' ';
      }
    }
    FindFirst(s, DASH, |a|);
  }

  lemma SliceOfConcat(a: string, rest: string, j: nat, n: nat)
    requires j + n <= |a|
    ensures (a + rest)[j..j + n] == a[j..j + n]
  {
  }

  /** If `a` ends in `" -"`, the first `" - "` in `a + " - " + b` starts inside `a`. */
  lemma FindDashEarly(a: string, b: string)
    requires EndsWith(a, " -")
    ensures Find(a + DASH + b, DASH).Some? && Find(a + DASH + b, DASH).value < |a|
  {
    var s := a + DASH + b;
    assert s[|a| - 2..|a| + 1] == DASH;
    assert OccursAt(s, DASH, |a| - 2);
  }

  /** `c.isspace()` in Python 3, for every character it is true of. */
  predicate IsSpace(c: char)
    ensures c as int < 128 ==> (IsSpace(c) <==> c == ' ' || '\t' <= c <= '\r' || 28 <= c as int <= 31)
  {
    var n := c as int;
    || (9 <= n <= 13) || (0x1C <= n <= 0x20) || n == 0x85 || n == 0xA0
    || n == 0x1680 || (0x2000 <= n <= 0x200A) || n == 0x2028 || n == 0x2029
    || n == 0x202F || n == 0x205F || n == 0x3000
  }

  function TrimLeft(s: string): (t: string)
    ensures |t| <= |s| && t == s[|s| - |t|..]
    ensures t == [] || !IsSpace(t[0])
  {
    if |s| > 0 && IsSpace(s[0]) then TrimLeft(s[1..]) else s
  }

  function TrimRight(s: string): (t: string)
    ensures |t| <= |s| && t == s[..|t|]
    ensures t == [] || !IsSpace(t[|t| - 1])
  {
    if |s| > 0 && IsSpace(s[|s| - 1]) then TrimRight(s[..|s| - 1]) else s
  }

  /** `s.strip()`. */
  function Strip(s: string): (r: string)
    ensures |r| <= |s| && Stripped(r)
  {
    var l := TrimLeft(s);
    StripEnds(l);
    TrimRight(l)
  }

  /** No surrounding whitespace: `s.strip() == s` (see StripStripped). */
  predicate Stripped(s: string) {
    s == [] || (!IsSpace(s[0]) && !IsSpace(s[|s| - 1]))
  }

  /** strip returns a piece of s with no surrounding whitespace. */
  lemma StripShape(s: string)
    ensures var i := |s| - |TrimLeft(s)|; i + |Strip(s)| <= |s| && Strip(s) == s[i..i + |Strip(s)|]
    ensures Stripped(Strip(s))
  {
    var l := TrimLeft(s);
    var t := TrimRight(l);
    var i := |s| - |l|;
    SliceOfSlice(s, i, |l|, 0, |t|);
    StripEnds(l);
  }

  /** Trimming the right of a left-trimmed string keeps its first character. */
  lemma StripEnds(l: string)
    requires l == [] || !IsSpace(l[0])
    ensures Stripped(TrimRight(l))
  {
    var t := TrimRight(l);
    if t != [] {
      assert t[0] == l[0];
    }
  }

  /** TrimLeft removes only whitespace. */
  lemma {:induction false} TrimLeftSpaces(s: string)
    ensures forall k :: 0 <= k < |s| - |TrimLeft(s)| ==> IsSpace(s[k])
  {
    if |s| > 0 && IsSpace(s[0]) {
      TrimLeftSpaces(s[1..]);
    }
  }

  /** TrimRight removes only whitespace. */
  lemma {:induction false} TrimRightSpaces(s: string)
    ensures forall k :: |TrimRight(s)| <= k < |s| ==> IsSpace(s[k])
  {
    if |s| > 0 && IsSpace(s[|s| - 1]) {
      TrimRightSpaces(s[..|s| - 1]);
    }
  }

  /** strip returns the empty string exactly for an all-whitespace string. */
  lemma StripEmpty(s: string)
    ensures Strip(s) == [] <==> forall k :: 0 <= k < |s| ==> IsSpace(s[k])
  {
    var l := TrimLeft(s);
    var t := TrimRight(l);
    if t == [] {
      TrimRightSpaces(l);
      assert l == [];
      TrimLeftSpaces(s);
    } else {
      StripShape(s);
      var i := |s| - |l|;
      assert t[0] == s[i];
    }
  }

  /** strip leaves a string that has no surrounding whitespace as it is. */
  lemma StripStripped(s: string)
    requires Stripped(s)
    ensures Strip(s) == s
  {
  }

  /** strip is idempotent. */
  lemma StripIdempotent(s: string)
    ensures Strip(Strip(s)) == Strip(s)
  {
    StripShape(s);
    StripStripped(Strip(s));
  }

  lemma SliceOfSlice(s: string, i: nat, m: nat, j: nat, n: nat)
    requires i + m <= |s| && j + n <= m
    ensures s[i..i + m][j..j + n] == s[i + j..i + j + n]
  {
    var v := s[i..i + m][j..j + n];
    var w := s[i + j..i + j + n];
    forall k | 0 <= k < n
      ensures v[k] == w[k]
    {
    }
    assert v == w;
  }

  /** A piece of a string without the separator has none either. */
  lemma InfixClean(s: string, sep: string, i: nat, t: string)
    requires !Contains(s, sep)
    requires i + |t| <= |s| && t == s[i..i + |t|]
    ensures !Contains(t, sep)
  {
    forall j: nat | j <= |t|
      ensures !OccursAt(t, sep, j)
    {
      if j + |sep| <= |t| {
        SliceOfSlice(s, i, |t|, j, |sep|);
        assert !OccursAt(s, sep, i + j);
      }
    }
  }

  /** strip cannot create an occurrence of a separator. */
  lemma StripInfixClean(s: string, sep: string)
    requires !Contains(s, sep)
    ensures !Contains(Strip(s), sep)
  {
    var i := StripOffset(s);
    InfixClean(s, sep, i, Strip(s));
  }

  /** strip returns the slice of s starting at some offset i. */
  lemma StripOffset(s: string) returns (i: nat)
    ensures i + |Strip(s)| <= |s| && Strip(s) == s[i..i + |Strip(s)|]
  {
    StripShape(s);
    i := |s| - |TrimLeft(s)|;
  }
}
